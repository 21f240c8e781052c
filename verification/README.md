# Board-game chatbot: retrieval, grounding and statistics core in Dafny

This project models the decision core of a board-game platform's chatbot and
a few pure routines of its statistics service, and proves properties of them.

- **Vector store** (`vector_store.dfy`, `legacy_store.dfy`). The pgvector
  table `vector_data` and the `game_names` table are modelled as an immutable
  `Store`: a sequence of rows `(topic, text, info, embedding)`, a list of game
  names, and a `live` flag.
  - `live = false` stands for a missing connection or for statements that
    raise. Every operation then returns its fallback value, or leaves the
    store unchanged.
  - The `VECTOR(768)` column is modelled. An insert whose embedding has the
    wrong length fails, and the failure is swallowed. A query vector of the
    wrong length fails against a non-empty table.
  - Similarity (current revision) and L2 distance (old revision) are
    uninterpreted functions.
  - "Nearest" is stated relationally. Any row whose score no other row beats
    may be returned, because `ORDER BY … LIMIT 1` has no tie-break. The
    functions themselves pick the lowest index.
- **Guidance synchronisation** (`guidance_sync.dfy`). The current
  `upload_guidance_data` is a staged three-step merge:
  - delete stale topic-1 rows, keyed on `info`;
  - update rows keyed on `info`, in any topic;
  - insert staged rows whose `text` no row holds yet.

  The merge is all-or-nothing. The old revision's append-once gate is in
  `legacy_store.dfy`.
- **Guidance seed loader** (`guidance_loader.dfy`). The seed text
  `"Guidance for <topic>: " + " ".join(steps)`, the topic list, and the
  category map `{1: "guidance", 2: "rules"}`. The file is a parameter
  (`Option<Json>`). Both copies of the loader are modelled by the same
  functions.
- **Entity grounding guard** (`grounding.dfy`). `get_game_entities` comes in
  a stanza variant and a spaCy variant. In both, the NLP pipeline is an
  uninterpreted function. `is_game_not_known` compares lower-cased findings
  with the known names *as stored*.
- **RAG pipeline** (`rag_pipeline.dfy`). `rag_pipeline` has two refusal
  exits. Otherwise it generates from a grounded prompt. The embedder, the
  similarity, the NLP pipeline and the model's `generate` are parameters.
- **Prompt and backend factory** (`llm_factory.dfy`). `construct_prompt`
  uses the exact template text. `get_llm_instance` is modelled as written
  and as intended (see Findings).
- **New-game ingestion** (`ingestion.dfy`):
  - validation of the `GameAddedEvent` message body, from an own `Json`
    datatype in `json_value.dfy`;
  - the five example questions;
  - the `"Rules for <name>: …"` info text;
  - `process_game_added_event`;
  - `add_queue_handler`.
- **Statistics** (`predictions.dfy`, `player_metrics.dfy`):
  - the row-by-row upsert of `save_predictions_to_db`;
  - the early exits of `predict_and_save_to_db`;
  - column-name capitalisation and churn binarisation from `model.py`;
  - the required-column check of `load_and_prepare_data`.

Shared helpers live in `wrappers.dfy` (`Option`, `Result`) and `text.dfy`:
`str.join`, ASCII case mapping, substring search, and the decimal rendering
an f-string gives an `int`.

Where the documented design and the code disagree, the model follows the
code:
- the update step of the synchronisation has no topic filter, so it rewrites
  rules rows whose `info` equals a seed's info;
- the insert step is keyed on `text` across all topics, so a rules row with
  the same text keeps a seed from being inserted;
- the current `get_category` returns the raw integer topic, not a label, and
  the prompt receives its decimal rendering;
- the grounding guard is case-sensitive against stored names, so a game
  registered as "Catan" never grounds a query.

`get_rules_category` is imported by `rag_pipeline.py` and
`rabbitmq_consumer.py`, but the shown loader does not define it. It is taken
to be 2, the key the category map sends to "rules".

## Model

| member | source | states |
|---|---|---|
| VectorStore.Nearest | chatbot/app/core/retrieval/vs_postgres_vector.py:97-100 | the chosen row has a similarity no other row exceeds |
| VectorStore.UploadData | chatbot/app/core/retrieval/vs_postgres_vector.py:74-89 | on a usable store with a 768-long embedding, exactly one row with the given topic, text, info and embedding is appended and existing rows are kept; otherwise the store is unchanged |
| VectorStore.FindClosestText | chatbot/app/core/retrieval/vs_postgres_vector.py:91-108 | the `info` of some row of maximal similarity; "" when the table is empty, the store is unusable or the query vector does not fit |
| VectorStore.GetCategory | chatbot/app/core/retrieval/vs_postgres_vector.py:110-141 | a topic is returned iff the query succeeds and a nearest row has similarity strictly above 0.3, and then it is the raw topic of a nearest row; otherwise Unknown |
| VectorStore.ThresholdIsStrict | chatbot/app/core/retrieval/vs_postgres_vector.py:136 | a nearest similarity of exactly 0.3 is rejected |
| VectorStore.NearestScoresAgree | chatbot/app/core/retrieval/vs_postgres_vector.py:97-100 | any two rows the query may return have the same similarity, so the choice among ties changes no score |
| VectorStore.CategoryImpliesRetrieval | chatbot/app/core/retrieval/vs_postgres_vector.py:91-141 | an accepted category implies retrieval returns the info of a nearest row of the same table |
| VectorStore.CountTopic | chatbot/app/core/retrieval/vs_postgres_vector.py:151-158 | the `COUNT(*)` of a topic is at most the table size, and positive iff some row has that topic |
| VectorStore.ContainsGuidanceData | chatbot/app/core/retrieval/vs_postgres_vector.py:143-161 | the topic-1 count is positive on a usable store exactly when some row has topic 1; false when the query fails |
| VectorStore.UploadDataCounts | chatbot/app/core/retrieval/vs_postgres_vector.py:74-89 | a committed insert adds one to the count of its own topic and leaves every other topic's count unchanged |
| VectorStore.GuidanceFlagAfterWrites | chatbot/app/core/retrieval/vs_postgres_vector.py:143-161 | registering a game name or inserting a row of another topic leaves `contains_guidance_data` as it was; a committed topic-1 insert makes it true |
| VectorStore.UploadGameName | chatbot/app/core/retrieval/vs_postgres_vector.py:285-301 | names behave as a set: a duplicate insert hits the UNIQUE constraint and leaves the names unchanged, a new name is added, nothing else changes, and uniqueness is preserved |
| VectorStore.GetAllBoardGameNames | chatbot/app/core/retrieval/vs_postgres_vector.py:261-275 | exactly the stored names, without duplicates on a valid store; [] when the store is unusable |
| VectorStore.UploadGameNameIdempotent | chatbot/app/core/retrieval/vs_postgres_vector.py:252 | registering a name twice is registering it once |
| VectorStore.WritesPreserveValid | chatbot/app/core/retrieval/vs_postgres_vector.py:65 | both writes keep every embedding 768 long and the names unique |
| GuidanceSync.Stage | chatbot/app/core/retrieval/vs_postgres_vector.py:171-201 | one topic-1 staging row per seed, in seed order, holding the seed's text, info and embedding |
| GuidanceSync.DeleteStale | chatbot/app/core/retrieval/vs_postgres_vector.py:204-209 | removes exactly the topic-1 rows whose info is not staged; every other row keeps its multiplicity |
| GuidanceSync.DeleteStaleMembers | chatbot/app/core/retrieval/vs_postgres_vector.py:204-209 | every surviving row is a non-stale row of the original table |
| GuidanceSync.DeleteStaleKeeps | chatbot/app/core/retrieval/vs_postgres_vector.py:207 | every row that is not a stale topic-1 row survives the delete step |
| GuidanceSync.Match | chatbot/app/core/retrieval/vs_postgres_vector.py:217-218 | the staged row joined to a table row is one keyed by that row's info, and there is none exactly when no staged row has that info |
| GuidanceSync.UpdateMatching | chatbot/app/core/retrieval/vs_postgres_vector.py:212-220 | no row changes topic or info; a row whose info is staged, in any topic, takes the staged text and embedding; every other row is unchanged |
| GuidanceSync.Fresh | chatbot/app/core/retrieval/vs_postgres_vector.py:226-229 | the staged rows the anti-join selects: exactly those whose text no table row holds, with their multiplicities |
| GuidanceSync.InsertNew | chatbot/app/core/retrieval/vs_postgres_vector.py:223-231 | existing rows stay as a prefix; afterwards every staged text occurs; each appended row is a staged row whose text no earlier row had; the appended rows are exactly the fresh staged rows, each as often as it is staged and no more |
| GuidanceSync.Synchronize | chatbot/app/core/retrieval/vs_postgres_vector.py:203-231 | after the delete, update and insert statements every staged text is present and no topic-1 row has an unstaged info |
| GuidanceSync.InsertKeepsFresh | chatbot/app/core/retrieval/vs_postgres_vector.py:223-231 | the insert step adds no row the delete step would have removed |
| GuidanceSync.SynchronizeIsSynced | chatbot/app/core/retrieval/vs_postgres_vector.py:203-231 | after the three steps no row is stale, every row keyed by a staged info carries the staged text and embedding, and every staged text is present |
| GuidanceSync.SyncedIsFixedPoint | chatbot/app/core/retrieval/vs_postgres_vector.py:203-231 | on a synced table the three steps change nothing |
| GuidanceSync.UploadGuidanceData | chatbot/app/core/retrieval/vs_postgres_vector.py:163-238 | all-or-nothing: unchanged unless the store is usable and every seed embedding fits; on commit every seed text is present and every topic-1 row's info is a seed info; game names untouched |
| GuidanceSync.UploadGuidanceDataValid | chatbot/app/core/retrieval/vs_postgres_vector.py:178-233 | the synchronisation keeps the table constraints |
| GuidanceSync.UploadGuidanceDataIdempotent | chatbot/app/core/retrieval/vs_postgres_vector.py:163-238 | running the synchronisation twice with the same seeds equals running it once |
| GuidanceSync.SurvivorKeepsKeys | chatbot/app/core/retrieval/vs_postgres_vector.py:204-231 | a non-stale row survives update and insert with its topic and info, and unchanged when no seed carries its info |
| GuidanceSync.OtherTopicsKeepTheirKeys | chatbot/app/core/retrieval/vs_postgres_vector.py:207 | rows of other topics are never deleted and never change topic or info |
| GuidanceSync.UnrelatedRowsUntouched | chatbot/app/core/retrieval/vs_postgres_vector.py:204-220 | a row of another topic whose info no seed carries comes through unchanged |
| GuidanceSync.UpdateReachesOtherTopics | chatbot/app/core/retrieval/vs_postgres_vector.py:212-220 | a rules row whose info equals a seed's info is rewritten with that seed's text and embedding |
| GuidanceSync.SeedShadowedByExistingText | chatbot/app/core/retrieval/vs_postgres_vector.py:223-231 | a seed whose text a rules row already holds is not inserted, so its info appears nowhere after the sync |
| GuidanceLoader.ParseEntries | chatbot/app/configurations/guidance_loader.py:12-15 | all entries parse or the whole list fails; on success one entry per item, in file order |
| GuidanceLoader.ParseEntry | chatbot/app/configurations/guidance_loader.py:13-14 | an entry that yields a seed has a `topic` key holding that topic as a string |
| GuidanceLoader.EntryRoundTrip | chatbot/app/configurations/guidance_loader.py:13-14 | every entry written as `{"topic": …, "steps": […]}` parses back to itself |
| GuidanceLoader.SeedText | chatbot/app/configurations/guidance_loader.py:13 | the seed text starts with "Guidance for " and the topic, and its length is the template's plus the topic's plus the joined steps' |
| GuidanceLoader.SeedData | chatbot/app/configurations/guidance_loader.py:8-20 | [] when the file or any entry is malformed; otherwise one string per entry, in order, "Guidance for " + topic + ": " + the steps joined by spaces |
| GuidanceLoader.GetTopics | chatbot/app/configurations/guidance_loader.py:22-30 | when the guidance list exists and every item has a `topic` key, one topic per item in file order; [] when the list is missing or any item lacks a topic |
| GuidanceLoader.GetTopicsAppend | chatbot/app/configurations/guidance_loader.py:26 | appending an item with a topic to the list appends its topic to the result |
| GuidanceLoader.TopicsSurviveMissingSteps | chatbot/app/configurations/guidance_loader.py:8-30 | the two readers fail independently: an entry without steps empties the seeds but its topic is still returned |
| GuidanceLoader.TopicsAlignWithSeeds | chatbot/app/configurations/guidance_loader.py:8-30 | topics and seed texts have the same length and the i-th seed text starts with "Guidance for " + the i-th topic |
| GuidanceLoader.OneBadEntrySpoilsAll | chatbot/platform_guidance/guidance_loader.py:12-20 | a single malformed entry makes the seed list empty |
| GuidanceLoader.ParseEntriesAppend | chatbot/platform_guidance/guidance_loader.py:12-15 | parsing is a left-to-right map: appending an item appends its entry |
| GuidanceLoader.CategoryMap | chatbot/app/configurations/guidance_loader.py:33-37 | exactly {1 ↦ "guidance", 2 ↦ "rules"} |
| GuidanceLoader.RulesCategory | chatbot/app/services/rag_pipeline.py:8 | the key the category map sends to "rules" |
| GuidanceLoader.CategoryLabel | chatbot/core/vector_search/vs_postgres_vector.py:117 | a mapped topic gets its own label from the map; "unknown" exactly for topics outside the map |
| GuidanceLoader.CategoryLabelsDistinct | chatbot/platform_guidance/guidance_loader.py:33-37 | two mapped topics with the same label are the same topic |
| LegacyVectorStore.Closest | chatbot/core/vector_search/vs_postgres_vector.py:87-90 | the chosen row has a distance no other row undercuts |
| LegacyVectorStore.UploadData | chatbot/core/vector_search/vs_postgres_vector.py:65-80 | appends min(len(texts), len(embeddings)) rows of the given topic, pairing texts and embeddings by position, or changes nothing when a batch element misfits |
| LegacyVectorStore.Zipped | chatbot/core/vector_search/vs_postgres_vector.py:73-75 | `zip` truncates to the shorter list and pairs texts and embeddings by position |
| LegacyVectorStore.FindClosestText | chatbot/core/vector_search/vs_postgres_vector.py:82-96 | the `text` of some row of minimal distance; "" on an empty table or a failing query |
| LegacyVectorStore.GetCategory | chatbot/core/vector_search/vs_postgres_vector.py:98-123 | always "guidance", "rules" or "unknown"; "unknown" on a failing query or empty table and when a closest row is below 0.5; when a closest row is at distance at least 0.5 the result is the label of a closest row's topic; any label other than "unknown" is that of a closest row at distance at least 0.5 with a mapped topic |
| LegacyVectorStore.ThresholdIsInclusive | chatbot/core/vector_search/vs_postgres_vector.py:115-117 | a closest distance of exactly 0.5 is accepted: when the closest rows share a topic, the category is that topic's label, whatever the topic |
| LegacyVectorStore.CategoryImpliesRetrieval | chatbot/core/vector_search/vs_postgres_vector.py:82-120 | an accepted category implies retrieval returns the text of a closest row at distance at least 0.5 |
| LegacyVectorStore.CountTopic | chatbot/core/vector_search/vs_postgres_vector.py:129-134 | the `COUNT(*)` of a topic is at most the table size, and positive iff some row has that topic |
| LegacyVectorStore.CountTopicAppend | chatbot/core/vector_search/vs_postgres_vector.py:129 | the count of a concatenation is the sum of the counts |
| LegacyVectorStore.CountUniform | chatbot/core/vector_search/vs_postgres_vector.py:143 | a batch of rows of one topic counts in full |
| LegacyVectorStore.ContainsGuidanceData | chatbot/core/vector_search/vs_postgres_vector.py:126-137 | the topic-1 count is positive on a usable store exactly when some row has topic 1; false when the query fails |
| LegacyVectorStore.UploadGuidanceData | chatbot/core/vector_search/vs_postgres_vector.py:139-158 | appends one topic-1 row per seed text with its embedding, or nothing |
| LegacyVectorStore.EnsureGuidanceData | chatbot/core/vector_search/vs_postgres_vector.py:160-165 | unchanged when guidance rows exist, an upload otherwise |
| LegacyVectorStore.EnsureGuidanceDataIdempotent | chatbot/core/vector_search/vs_postgres_vector.py:160-165 | ensuring twice equals ensuring once |
| LegacyVectorStore.UploadCountsEverySeed | chatbot/core/vector_search/vs_postgres_vector.py:139-158 | a committed seed upload raises the topic-1 count by exactly the number of seeds |
| LegacyVectorStore.EnsureClosesGate | chatbot/core/vector_search/vs_postgres_vector.py:160-165 | after ensuring with a non-empty list of fitting seeds, `contains_guidance_data` is true, so the upload never repeats |
| LegacyVectorStore.EnsureAppendsEverySeed | chatbot/core/vector_search/vs_postgres_vector.py:139-165 | when the gate opens on a usable store, every seed text becomes one new topic-1 row |
| Grounding.GetGameEntities | chatbot/app/services/entity_extraction.py:9-14 | exactly the words of the lower-cased query together with its entity spans lower-cased |
| Grounding.GetGameEntitiesSpacy | chatbot/app/services/game_service.py:6-11 | exactly the tokens of the lower-cased query together with its entity spans lower-cased |
| Grounding.FindingsAreLowerCase | chatbot/app/services/entity_extraction.py:10-12 | with a tokenizer that cuts words out of its input, every finding is lower-case |
| Grounding.IsGameNotKnown | chatbot/app/services/entity_extraction.py:18-22 | the game is unknown exactly when the set of lower-cased findings and the set of known names are disjoint |
| Grounding.IsGameNotKnownLoop | chatbot/app/services/entity_extraction.py:18-22 | false iff some finding, lower-cased, is literally a known name, whatever the iteration order |
| Grounding.NoFindingsIsUnknown | chatbot/app/services/game_service.py:13-17 | no findings means the game is unknown |
| Grounding.IsGameNotKnownMonotone | chatbot/app/services/entity_extraction.py:18-22 | more findings or more known names can only turn "unknown" into "known" |
| Grounding.CapitalisedNamesNeverMatch | chatbot/app/services/entity_extraction.py:20 | known names containing an upper-case letter never change the verdict |
| Grounding.ChessIsNotGroundedByCapitalisedName | chatbot/app/services/game_service.py:13-17 | the finding "chess" is not grounded by the names "Chess" and "Go" |
| RagPipeline.Decide | chatbot/app/services/rag_pipeline.py:17-32 | platform refusal iff retrieval is empty or the category is unknown; IndexError iff the batch is empty past that point; unknown-game refusal iff the category is 2 and the guard finds no known game; otherwise a prompt built from the decimal topic and the info of a nearest row above 0.3, for `query[0]` |
| RagPipeline.Answer | chatbot/app/services/rag_pipeline.py:11-34 | the platform refusal for every ungrounded question; the unknown-game refusal for a rules question naming no known game; otherwise the model's output for a prompt built from a nearest row above 0.3 and `query[0]`; IndexError only for an empty batch past the refusal check |
| RagPipeline.NothingSimilarIsRefused | chatbot/app/services/rag_pipeline.py:19-24 | when no row is more than 0.3 similar, the answer is the platform refusal, whatever the model says |
| RagPipeline.StoreDownIsRefused | chatbot/app/services/rag_pipeline.py:19-24 | an unusable store gives the platform refusal |
| RagPipeline.UnknownGameOnlyForRules | chatbot/app/services/rag_pipeline.py:29-30 | the unknown-game decision is only taken when a nearest row has the rules topic, and it answers with the unknown-game refusal |
| RagPipeline.UnknownGameRefusalOnlyForRules | chatbot/app/services/rag_pipeline.py:29-30 | when the model never produces the refusal's exact words, an answer equal to the unknown-game refusal implies a nearest row has the rules topic |
| RagPipeline.GuardOnlyForRules | chatbot/app/services/rag_pipeline.py:29 | outside the rules topic the NLP pipeline does not affect the answer |
| RagPipeline.KnownGameIsAnswered | chatbot/app/services/rag_pipeline.py:26-33 | a grounded question naming a registered lower-case game reaches generation |
| RagPipeline.OnlyFirstQuestionMatters | chatbot/app/services/rag_pipeline.py:17-33 | batches with the same embedding and the same first question get the same answer |
| RagPipeline.NonEmptyBatchAnswers | chatbot/app/services/rag_pipeline.py:26-34 | the pipeline's own code raises only on an empty batch; with a non-empty batch it always answers |
| LlmFactory.ConstructPrompt | chatbot/app/core/language_models/llm_factory.py:23-36 | the prompt is head, category, middle, retrieved text and tail: its length is the constants' length plus both arguments', and the category and the retrieved text occur at fixed offsets |
| LlmFactory.PromptRoundTrip | chatbot/app/core/language_models/llm_factory.py:31-33 | category and retrieved text can be read back out of the prompt |
| LlmFactory.GetLlmInstanceAsWritten | chatbot/app/core/language_models/llm_factory.py:14-20 | "ollama" selects Ollama; no other tag ever yields a backend; unknown tags raise ValueError naming the tag |
| LlmFactory.OpenAiTagRaises | chatbot/app/core/language_models/llm_chatgpt.py:8 | as written, "openai" raises TypeError |
| LlmFactory.GetLlmInstance | chatbot/app/core/language_models/llm_factory.py:14-20 | "ollama" and "openai" select their backends, and exactly every other tag raises ValueError naming the tag |
| LlmFactory.FactoriesAgreeExceptOpenAi | chatbot/app/core/language_models/llm_factory.py:16-18 | the two factories differ exactly on "openai" |
| Ingestion.ParseRule | chatbot/app/external_services/event_model.py:6-8 | a rule validates iff it is an object with string `rule` and `description` |
| Ingestion.ParseRules | chatbot/app/external_services/event_model.py:20 | the rules list validates iff every element does, element by element |
| Ingestion.RequiredString | chatbot/app/external_services/event_model.py:12 | `gameName` validates iff present and a string, and the value is that string |
| Ingestion.OptionalString | chatbot/app/external_services/event_model.py:13-19 | an optional string field is None iff absent or null, and fails iff present with a non-string value |
| Ingestion.OptionalNumber | chatbot/app/external_services/event_model.py:14 | `price` is None iff absent or null, and fails iff present with a non-number |
| Ingestion.OptionalInt | chatbot/app/external_services/event_model.py:16 | `maxLobbyPlayersAmount` is None iff absent or null; an accepted value is the integer the number denotes |
| Ingestion.RulesField | chatbot/app/external_services/event_model.py:20 | absent `rules` default to []; a present non-list fails |
| Ingestion.ParseEvent | chatbot/app/external_services/event_model.py:11-20 | a non-object is rejected; an object is accepted exactly when every declared field validates; a missing or non-string `gameName` is rejected; an accepted event carries that name; absent `rules` give [] and each of the seven absent optional fields gives None |
| Ingestion.MinimalEventAccepted | chatbot/app/external_services/event_model.py:11-20 | an object holding only a string `gameName` is accepted, with every other field at its default |
| Ingestion.EventRoundTrip | chatbot/app/external_services/event_model.py:11-20 | every event survives encoding and validation unchanged |
| Ingestion.GenerateExampleQueries | chatbot/app/services/game_query_generator.py:6-22 | five questions, each containing the game name |
| Ingestion.ExampleQueriesRecoverName | chatbot/app/services/game_query_generator.py:17 | the game name can be read back out of the first question |
| Ingestion.ExampleQueriesInjective | chatbot/app/services/game_query_generator.py:17-21 | different games get different questions |
| Ingestion.RulesInfo | chatbot/app/external_services/rabbitmq_consumer.py:85 | the info starts with "Rules for <name>: " and contains "<rule> <description>" for every rule |
| Ingestion.NoRulesInfo | chatbot/app/external_services/rabbitmq_consumer.py:85 | with no rules the info is exactly "Rules for <name>: " |
| Ingestion.IngestedText | chatbot/app/external_services/rabbitmq_consumer.py:86-88 | the embedded text contains the game name |
| Ingestion.ProcessGameAddedEvent | chatbot/app/external_services/rabbitmq_consumer.py:75-102 | an invalid event, an unusable store or an embedding the column rejects changes nothing, because the aborted transaction also fails the name insert; otherwise exactly one rules row (text: the questions, info: the rules) is appended and the name is registered verbatim |
| Ingestion.IngestedGameIsListed | chatbot/app/external_services/rabbitmq_consumer.py:92-98 | a game whose rules row was stored is listed among the known games |
| Ingestion.CapitalisedNameNeverGrounds | chatbot/app/external_services/rabbitmq_consumer.py:98 | ingesting a name with a capital letter never changes the grounding guard's verdict |
| Ingestion.LowerCaseNameGrounds | chatbot/app/external_services/rabbitmq_consumer.py:92-98 | a lower-case name whose rules row was stored grounds any findings that include it |
| Ingestion.IngestedRulesAreRetrieved | chatbot/app/external_services/rabbitmq_consumer.py:85-97 | on an empty table the ingested rules text is what retrieval returns |
| Ingestion.AddQueueHandler | chatbot/app/external_services/rabbitmq_consumer.py:55-61 | the queue's entry becomes the handler; other entries are unchanged |
| Ingestion.LastHandlerWins | chatbot/app/external_services/rabbitmq_consumer.py:61 | registering twice under one queue keeps only the last handler |
| Predictions.Lookup | statistics/app/services/prediction_churn.py:94-99 | the `SELECT 1` check: nothing exactly when no record has the id, otherwise the prediction of a record with that id |
| Predictions.Upsert | statistics/app/services/prediction_churn.py:94-129 | an existing id is updated in place with no record added, a new id is appended, other ids are untouched, and ids stay unique |
| Predictions.SavePredictions | statistics/app/services/prediction_churn.py:87-129 | keeps ids unique and adds at most one record per input row |
| Predictions.LastRowWins | statistics/app/services/prediction_churn.py:87-129 | for a repeated player id the last row's prediction is saved |
| Predictions.AbsentPlayersUntouched | statistics/app/services/prediction_churn.py:99-129 | players absent from the input keep their records |
| Predictions.SavedIds | statistics/app/services/prediction_churn.py:99-129 | afterwards a record exists exactly for the old ids and the saved ids |
| Predictions.PredictAndSave | statistics/app/services/prediction_churn.py:17-73 | FileNotFoundError first when the model is missing; unchanged table when a feature column is missing; ValueError only when the model output has the wrong length; KeyError only for a missing `player_player_id`; a run with the model, all features, a full-length output and the id column succeeds and saves every row |
| Predictions.PredictAndSaveLeavesOthers | statistics/app/services/prediction_churn.py:61-73 | a run never changes the record of a player who is not in the frame |
| Predictions.PredictionRows | statistics/app/services/prediction_churn.py:61-67 | one record per frame row, with that row's player id and churn, probability 0.5 and class "BEGINNER" |
| Predictions.PredictedPlayersGetPlaceholders | statistics/app/services/prediction_churn.py:61-67 | after a successful run every player of the frame has a record with probability 0.5 and class "BEGINNER" |
| PlayerMetrics.NormalizeColumn | statistics/app/services/model.py:44 | IndexError iff the name is empty; the first character changes iff it is lower-case, to its upper-case form; the rest is kept |
| PlayerMetrics.NormalizeColumns | statistics/app/services/model.py:44 | fails iff some name is empty; otherwise same number and order of columns, each normalised |
| PlayerMetrics.NormalizeColumnsIdempotent | statistics/app/services/model.py:44 | normalising twice is normalising once |
| PlayerMetrics.CamelCaseFeaturesAreRecognised | statistics/app/services/model.py:40-46 | "totalGamesPlayed" becomes the feature name "TotalGamesPlayed"; "AvgMoveDuration" is kept |
| PlayerMetrics.BinarizeChurn | statistics/app/services/model.py:24 | each label is 0 or 1, and 1 exactly when the score is at least 0.5 |
| PlayerMetrics.BinarizeChurnIdempotent | statistics/app/services/model.py:24 | binarised labels are fixed points of binarisation |
| PlayerMetrics.BinarizeChurnMonotone | statistics/app/services/model.py:24 | a higher score never gets a lower label |
| PlayerMetrics.LoadAndPrepare | statistics/app/services/data_preparation.py:15-22 | ValueError with the fixed message iff some of the six required columns is absent; otherwise the data unchanged |
| PlayerMetrics.LoadIgnoresColumnOrder | statistics/app/services/data_preparation.py:19 | only the set of column names matters |
| PlayerMetrics.LoadAcceptsExtraColumns | statistics/app/services/data_preparation.py:19 | extra columns never cause a rejection |
| PlayerMetrics.LoadRejectsMissingColumn | statistics/app/services/data_preparation.py:15-20 | dropping any required column causes a rejection |
| Text.Lower | chatbot/app/services/entity_extraction.py:10 | same length, each character lower-cased, result lower-case |
| Text.DecimalRoundTrip | chatbot/app/services/rag_pipeline.py:32 | the decimal rendering of the topic in the prompt determines the topic |

## Left out

- SQL plumbing: connections, DDL, cursors and the session-scoped temp staging table. Each store operation either succeeds or leaves the state unchanged. The except blocks never roll back, so one swallowed error aborts the rest of the transaction on that connection. Within one event, Ingestion.ProcessGameAddedEvent models this; the poisoning of later, separate calls is not modelled.
- Cosine similarity, L2 distance and embedding generation are uninterpreted functions returning `real`. A NULL or NaN similarity is not modelled.
- LegacyVectorStore.FindClosestText: the old code also passes the query parameters without a wrapping tuple (line 91), so a one-dimensional query embedding binds 768 parameters to one placeholder and returns "". The model returns the closest row's text for any query vector.
- VectorStore.FindClosestText: the current code passes the query parameters without a wrapping tuple. It therefore only works for a batch-shaped query embedding. The model takes one query vector and does not model that shape dependence.
- Floating point: the thresholds 0.3 and 0.5 are exact reals.
- Language-model clients, the stanza and spaCy pipelines and their model downloads: all are function parameters.
- RabbitMQ connection, listeners and asyncio startup; FastAPI routes; global singletons; secrets retrievers; the string-tag factories for stores and embedders. These are I/O, concurrency or thin constructors.
- ML training, the sklearn predict, CSV reading and writing, and numeric preprocessing. The model output is a parameter `predict`, and the frame is given.
- Case mapping is ASCII only. Python's Unicode `lower`, `upper` and `islower` are not modelled.
- Pydantic lax coercions (numeric strings to numbers, and similar) are not modelled. An `int` field accepts a number with no fractional part, and a string field accepts only a string.
- GuidanceLoader.SeedData: a non-string `topic` (which Python would render with `str`) and a dict-valued `steps` are treated as malformed.
- GuidanceSync.UploadGuidanceData: the call site unpacks `seed_data()` into two lists (vs_postgres_vector.py:170), but the shown loader returns one list. The model takes explicit `(text, info)` pairs.
- GuidanceSync.UploadGuidanceData: it requires distinct seed infos, because `UPDATE … FROM` with several matching staged rows picks one nondeterministically.
- GuidanceLoader.GetTopics: the older copy opens the file relative to the working directory, not the module directory. Which document it reads is the caller's argument.
- Predictions.PredictAndSave: the whole save loop runs inside one `connection.begin()` transaction. A failing statement is logged, but it aborts that transaction, so every later row fails too and nothing from the batch is committed. The model has no per-row SQL failure and saves every row.
- Predictions.PredictAndSave: a `player_player_id` value that cannot be compared (NaN) is not modelled.
- RagPipeline.Decide: the topic and the info of the prompt are taken from one nearest row. The source runs two separate `ORDER BY … LIMIT 1` queries without a tie-break, so with equally near rows the topic may come from one row and the info from another.
- RagPipeline.Answer: it inherits the same-row coupling of topic and info from RagPipeline.Decide.
- RagPipeline.Decide: `embed` maps the whole batch to one query vector. The real embedder returns one row per question, and retrieval binds one parameter per row, so only one-question batches reach generation and an empty batch already fails in retrieval. The IndexError branch is therefore the pipeline's own guard, which the real embedder does not reach.
- RagPipeline.NonEmptyBatchAnswers: exceptions raised by the collaborators (the `ollama.chat` call, the embedder, the stanza pipeline) propagate in the source. They are not modelled, because the collaborators are total functions here.
- Ingestion.ProcessGameAddedEvent: a duplicate game name also fails on the UNIQUE constraint and aborts the transaction; the model treats it as a no-op for the names and does not carry the aborted state into later calls.
- `get_rules_category` is not part of this model's sources. It is taken to be the constant 2.

## Findings

| source | as written | input that shows it | evidently intended | confidence | as-written member | corrected member |
|---|---|---|---|---|---|---|
| chatbot/app/core/language_models/llm_factory.py:16-18 | the "openai" branch calls `ChatGPTLLM(secrets_retriever)`, but `ChatGPTLLM.__init__` (llm_chatgpt.py:8) takes no argument besides `self`, so the call raises TypeError | `get_llm_instance("openai")` | "openai" returns a ChatGPT backend | not executed | LlmFactory.GetLlmInstanceAsWritten | LlmFactory.GetLlmInstance |
