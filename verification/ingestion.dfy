/**
 * New-game ingestion (chatbot/app/external_services/rabbitmq_consumer.py,
 * event_model.py and game_query_generator.py): a `GameAddedEvent` message is
 * validated, turned into one rules row whose text is five example questions
 * about the game and whose info lists the game's rules, and the game's name
 * is registered.
 */
module Ingestion {
  import opened Wrappers
  import opened Text
  import opened JsonValue
  import opened VectorStore
  import GuidanceLoader
  import Grounding

  datatype GameRule = GameRule(rule: string, description: string)

  /** The event body; every field but the name is optional and `rules` defaults to empty. */
  datatype GameAddedEvent = GameAddedEvent(
    gameName: string,
    description: Option<string>,
    price: Option<real>,
    currency: Option<string>,
    maxLobbyPlayersAmount: Option<int>,
    frontendUrl: Option<string>,
    backendApiUrl: Option<string>,
    gameImageUrl: Option<string>,
    rules: seq<GameRule>)

  /** Why an event body was rejected: it is not a mapping, or a field does not validate. */
  datatype ParseError = NotAMapping | Invalid(field: string)

  /** A required string field. */
  function RequiredString(fields: map<string, Json>, key: string): (r: Result<string, ParseError>)
    ensures r.Success? <==> key in fields && fields[key].JStr?
    ensures r.Success? ==> fields[key] == JStr(r.value)
  {
    if key in fields && fields[key].JStr? then Success(fields[key].s) else Failure(Invalid(key))
  }

  /** An optional string field: absent or null is None. */
  function OptionalString(fields: map<string, Json>, key: string): (r: Result<Option<string>, ParseError>)
    ensures r.Failure? <==> key in fields && !fields[key].JNull? && !fields[key].JStr?
    ensures r == Success(None) <==> key !in fields || fields[key].JNull?
  {
    if key !in fields || fields[key].JNull? then Success(None)
    else if fields[key].JStr? then Success(Some(fields[key].s))
    else Failure(Invalid(key))
  }

  /** An optional float field. */
  function OptionalNumber(fields: map<string, Json>, key: string): (r: Result<Option<real>, ParseError>)
    ensures r.Failure? <==> key in fields && !fields[key].JNull? && !fields[key].JNum?
    ensures r == Success(None) <==> key !in fields || fields[key].JNull?
  {
    if key !in fields || fields[key].JNull? then Success(None)
    else if fields[key].JNum? then Success(Some(fields[key].n))
    else Failure(Invalid(key))
  }

  /** An optional int field: a number with no fractional part. */
  function OptionalInt(fields: map<string, Json>, key: string): (r: Result<Option<int>, ParseError>)
    ensures r.Success? && r.value.Some? ==> key in fields && fields[key] == JNum(r.value.value as real)
    ensures r == Success(None) <==> key !in fields || fields[key].JNull?
  {
    if key !in fields || fields[key].JNull? then Success(None)
    else if fields[key].JNum? && fields[key].n.Floor as real == fields[key].n then Success(Some(fields[key].n.Floor))
    else Failure(Invalid(key))
  }

  /** `GameRule(**item)`. */
  function ParseRule(item: Json): (r: Result<GameRule, ParseError>)
    ensures r.Success? <==>
      item.JObj? && "rule" in item.fields && item.fields["rule"].JStr?
      && "description" in item.fields && item.fields["description"].JStr?
  {
    if !item.JObj? then Failure(Invalid("rules"))
    else
      match (RequiredString(item.fields, "rule"), RequiredString(item.fields, "description"))
      case (Success(rule), Success(description)) => Success(GameRule(rule, description))
      case _ => Failure(Invalid("rules"))
  }

  /** The rules list validates only if every element does. */
  function ParseRules(items: seq<Json>): (r: Result<seq<GameRule>, ParseError>)
    ensures r.Success? <==> forall i :: 0 <= i < |items| ==> ParseRule(items[i]).Success?
    ensures r.Success? ==> (|r.value| == |items|
      && forall i :: 0 <= i < |items| ==> r.value[i] == ParseRule(items[i]).value)
  {
    if |items| == 0 then Success([])
    else
      match (ParseRule(items[0]), ParseRules(items[1..]))
      case (Success(x), Success(xs)) => Success([x] + xs)
      case (Failure(e), _) => Failure(e)
      case (_, Failure(e)) =>
        assert forall i :: 1 <= i < |items| ==> items[i] == items[1..][i - 1];
        Failure(e)
  }

  function RulesField(fields: map<string, Json>): (r: Result<seq<GameRule>, ParseError>)
    ensures "rules" !in fields ==> r == Success([])
    ensures "rules" in fields && !fields["rules"].JArr? ==> r.Failure?
  {
    if "rules" !in fields then Success([])
    else if fields["rules"].JArr? then ParseRules(fields["rules"].items)
    else Failure(Invalid("rules"))
  }

  /** Every declared field of the event validates on its own. */
  predicate FieldsValidate(f: map<string, Json>)
  {
    && RequiredString(f, "gameName").Success?
    && OptionalString(f, "description").Success?
    && OptionalNumber(f, "price").Success?
    && OptionalString(f, "currency").Success?
    && OptionalInt(f, "maxLobbyPlayersAmount").Success?
    && OptionalString(f, "frontendUrl").Success?
    && OptionalString(f, "backendApiUrl").Success?
    && OptionalString(f, "gameImageUrl").Success?
    && RulesField(f).Success?
  }

  /** `GameAddedEvent(**event_data)`: unknown keys are ignored. */
  function ParseEvent(data: Json): (r: Result<GameAddedEvent, ParseError>)
    ensures !data.JObj? ==> r == Failure(NotAMapping)
    ensures data.JObj? ==> (r.Success? <==> FieldsValidate(data.fields))
    ensures r.Success? ==> data.JObj? && "gameName" in data.fields && data.fields["gameName"] == JStr(r.value.gameName)
    ensures data.JObj? && ("gameName" !in data.fields || !data.fields["gameName"].JStr?) ==> r.Failure?
    ensures r.Success? && "rules" !in data.fields ==> r.value.rules == []
    ensures r.Success? && "description" !in data.fields ==> r.value.description == None
    ensures r.Success? && "price" !in data.fields ==> r.value.price == None
    ensures r.Success? && "currency" !in data.fields ==> r.value.currency == None
    ensures r.Success? && "maxLobbyPlayersAmount" !in data.fields ==> r.value.maxLobbyPlayersAmount == None
    ensures r.Success? && "frontendUrl" !in data.fields ==> r.value.frontendUrl == None
    ensures r.Success? && "backendApiUrl" !in data.fields ==> r.value.backendApiUrl == None
    ensures r.Success? && "gameImageUrl" !in data.fields ==> r.value.gameImageUrl == None
  {
    if !data.JObj? then Failure(NotAMapping)
    else
      var f := data.fields;
      match (RequiredString(f, "gameName"), OptionalString(f, "description"), OptionalNumber(f, "price"),
             OptionalString(f, "currency"), OptionalInt(f, "maxLobbyPlayersAmount"), OptionalString(f, "frontendUrl"),
             OptionalString(f, "backendApiUrl"), OptionalString(f, "gameImageUrl"), RulesField(f))
      case (Success(n), Success(d), Success(p), Success(c), Success(m), Success(fu), Success(bu), Success(iu), Success(rs)) =>
        Success(GameAddedEvent(n, d, p, c, m, fu, bu, iu, rs))
      case _ =>
        Failure(if RequiredString(f, "gameName").Failure? then Invalid("gameName") else Invalid(""))
  }

  function StringToJson(o: Option<string>): Json
  {
    if o.Some? then JStr(o.value) else JNull
  }

  function RuleToJson(g: GameRule): Json
  {
    JObj(map["rule" := JStr(g.rule), "description" := JStr(g.description)])
  }

  function RulesToJson(rs: seq<GameRule>): (items: seq<Json>)
    ensures |items| == |rs|
  {
    if |rs| == 0 then [] else [RuleToJson(rs[0])] + RulesToJson(rs[1..])
  }

  /** The message body a producer sends for `e`. */
  function EventToJson(e: GameAddedEvent): Json
  {
    JObj(map[
      "gameName" := JStr(e.gameName),
      "description" := StringToJson(e.description),
      "price" := if e.price.Some? then JNum(e.price.value) else JNull,
      "currency" := StringToJson(e.currency),
      "maxLobbyPlayersAmount" := if e.maxLobbyPlayersAmount.Some? then JNum(e.maxLobbyPlayersAmount.value as real) else JNull,
      "frontendUrl" := StringToJson(e.frontendUrl),
      "backendApiUrl" := StringToJson(e.backendApiUrl),
      "gameImageUrl" := StringToJson(e.gameImageUrl),
      "rules" := JArr(RulesToJson(e.rules))])
  }

  lemma {:induction false} RulesRoundTrip(rs: seq<GameRule>)
    ensures ParseRules(RulesToJson(rs)) == Success(rs)
  {
    if |rs| > 0 {
      var items := RulesToJson(rs);
      assert items[0] == RuleToJson(rs[0]);
      assert items[1..] == RulesToJson(rs[1..]);
      RulesRoundTrip(rs[1..]);
      assert ParseRule(items[0]) == Success(rs[0]);
      assert [rs[0]] + rs[1..] == rs;
    }
  }

  lemma OptionalStringRoundTrip(fields: map<string, Json>, key: string, o: Option<string>)
    requires key in fields && fields[key] == StringToJson(o)
    ensures OptionalString(fields, key) == Success(o)
  {
  }

  /** Every event survives encoding and validation unchanged. */
  lemma EventRoundTrip(e: GameAddedEvent)
    ensures ParseEvent(EventToJson(e)) == Success(e)
  {
    var f := EventToJson(e).fields;
    assert f["gameName"] == JStr(e.gameName);
    assert RequiredString(f, "gameName") == Success(e.gameName);
    OptionalStringRoundTrip(f, "description", e.description);
    OptionalStringRoundTrip(f, "currency", e.currency);
    OptionalStringRoundTrip(f, "frontendUrl", e.frontendUrl);
    OptionalStringRoundTrip(f, "backendApiUrl", e.backendApiUrl);
    OptionalStringRoundTrip(f, "gameImageUrl", e.gameImageUrl);
    assert OptionalNumber(f, "price") == Success(e.price);
    if e.maxLobbyPlayersAmount.Some? {
      assert (e.maxLobbyPlayersAmount.value as real).Floor == e.maxLobbyPlayersAmount.value;
    }
    assert OptionalInt(f, "maxLobbyPlayersAmount") == Success(e.maxLobbyPlayersAmount);
    RulesRoundTrip(e.rules);
    assert RulesField(f) == Success(e.rules);
  }

  /** `generate_example_queries`: five questions about the game. */
  function GenerateExampleQueries(gameName: string): (qs: seq<string>)
    ensures |qs| == 5
    ensures forall i :: 0 <= i < 5 ==> Contains(qs[i], gameName)
  {
    var qs := [
      "How do I play " + gameName + "?",
      "What are the rules for " + gameName + "?",
      "Can you explain the rules of " + gameName + "?",
      "How do I start playing " + gameName + "?",
      "What is the objective of " + gameName + "?"];
    ContainsMiddle("How do I play ", gameName, "?");
    ContainsMiddle("What are the rules for ", gameName, "?");
    ContainsMiddle("Can you explain the rules of ", gameName, "?");
    ContainsMiddle("How do I start playing ", gameName, "?");
    ContainsMiddle("What is the objective of ", gameName, "?");
    qs
  }

  /** Reads the game name back out of the first example question. */
  function NameOfQuery(q: string): string
  {
    if 15 <= |q| then q[14..|q| - 1] else ""
  }

  /** The questions determine the game they are about. */
  lemma ExampleQueriesRecoverName(gameName: string)
    ensures NameOfQuery(GenerateExampleQueries(gameName)[0]) == gameName
  {
    var q := GenerateExampleQueries(gameName)[0];
    assert q == "How do I play " + gameName + "?";
    assert q[14..|q| - 1] == gameName;
  }

  /** Different games get different questions. */
  lemma ExampleQueriesInjective(a: string, b: string)
    requires GenerateExampleQueries(a) == GenerateExampleQueries(b)
    ensures a == b
  {
    ExampleQueriesRecoverName(a);
    ExampleQueriesRecoverName(b);
  }

  /** `' '.join([rule.rule, rule.description])` for each rule. */
  function RulePhrases(rules: seq<GameRule>): (ps: seq<string>)
    ensures |ps| == |rules|
    ensures forall i :: 0 <= i < |rules| ==> ps[i] == rules[i].rule + " " + rules[i].description
  {
    seq(|rules|, i requires 0 <= i < |rules| => rules[i].rule + " " + rules[i].description)
  }

  const RulesPrefix: string := "Rules for "

  /** The info column of an ingested game. */
  function RulesInfo(gameName: string, rules: seq<GameRule>): (info: string)
    ensures OccursAt(info, RulesPrefix + gameName + ": ", 0)
    ensures forall i :: 0 <= i < |rules| ==> Contains(info, rules[i].rule + " " + rules[i].description)
  {
    var head := RulesPrefix + gameName + ": ";
    var body := Join(" ", RulePhrases(rules));
    assert (head + body)[..|head|] == head;
    forall i | 0 <= i < |rules|
      ensures Contains(head + body, rules[i].rule + " " + rules[i].description)
    {
      JoinContainsParts(" ", RulePhrases(rules), i);
      var k :| 0 <= k <= |body| && OccursAt(body, RulePhrases(rules)[i], k);
      OccursAfterPrefix(head, body, RulePhrases(rules)[i], k);
    }
    head + body
  }

  /** A game without rules is stored with the bare heading. */
  lemma NoRulesInfo(gameName: string)
    ensures RulesInfo(gameName, []) == "Rules for " + gameName + ": "
  {
  }

  /** The text column of an ingested game: its example questions joined by spaces. */
  function IngestedText(gameName: string): (t: string)
    ensures Contains(t, gameName)
  {
    var qs := GenerateExampleQueries(gameName);
    JoinContainsParts(" ", qs, 0);
    var t := Join(" ", qs);
    var k :| 0 <= k <= |t| && OccursAt(t, qs[0], k);
    var j :| 0 <= j <= |qs[0]| && OccursAt(qs[0], gameName, j);
    OccursWithin(t, qs[0], gameName, k, j);
    t
  }

  type Embedder = string -> Vec

  /**
   * `process_game_added_event`: a valid event appends one rules row and
   * registers the game's name verbatim; an invalid one changes nothing. When the
   * store rejects the embedding, the swallowed error leaves the transaction
   * aborted (no rollback), so the name insert that follows fails as well.
   */
  function ProcessGameAddedEvent(data: Json, s: Store, embed: Embedder): (r: Store)
    ensures r.live == s.live
    ensures ParseEvent(data).Failure? || !s.live ==> r == s
    ensures ParseEvent(data).Success? && !Fits(embed(IngestedText(ParseEvent(data).value.gameName))) ==> r == s
    ensures ParseEvent(data).Success? && s.live && Fits(embed(IngestedText(ParseEvent(data).value.gameName))) ==>
      var e := ParseEvent(data).value;
      && (forall n :: n in r.games <==> n in s.games || n == e.gameName)
      && r.rows == s.rows + [Row(GuidanceLoader.RulesCategoryId, IngestedText(e.gameName),
                                 RulesInfo(e.gameName, e.rules), embed(IngestedText(e.gameName)))]
  {
    match ParseEvent(data)
    case Failure(_) => s
    case Success(e) =>
      var text := IngestedText(e.gameName);
      if !Fits(embed(text)) then s
      else
        var uploaded := UploadData(s, text, RulesInfo(e.gameName, e.rules), embed(text), GuidanceLoader.RulesCategory());
        UploadGameName(uploaded, e.gameName)
  }

  /** An event with just a string `gameName` is accepted, with every other field at its default. */
  lemma MinimalEventAccepted(name: string)
    ensures ParseEvent(JObj(map["gameName" := JStr(name)]))
         == Success(GameAddedEvent(name, None, None, None, None, None, None, None, []))
  {
  }

  /** An ingested game is listed among the known games. */
  lemma IngestedGameIsListed(data: Json, s: Store, embed: Embedder)
    requires s.live && ParseEvent(data).Success?
    requires Fits(embed(IngestedText(ParseEvent(data).value.gameName)))
    ensures ParseEvent(data).value.gameName in GetAllBoardGameNames(ProcessGameAddedEvent(data, s, embed))
  {
  }

  /**
   * Ingesting a game whose name has a capital letter does not change the
   * entity guard's verdict on any findings: the guard compares lower-cased
   * findings with names as stored.
   */
  lemma CapitalisedNameNeverGrounds(data: Json, s: Store, embed: Embedder, findings: set<string>)
    requires ParseEvent(data).Success? && !IsLowerCase(ParseEvent(data).value.gameName)
    ensures Grounding.IsGameNotKnown(findings, ProcessGameAddedEvent(data, s, embed).games)
        == Grounding.IsGameNotKnown(findings, s.games)
  {
  }

  /** A lower-case game name, once ingested, grounds any query that mentions it. */
  lemma LowerCaseNameGrounds(data: Json, s: Store, embed: Embedder, findings: set<string>)
    requires s.live && ParseEvent(data).Success?
    requires Fits(embed(IngestedText(ParseEvent(data).value.gameName)))
    requires ParseEvent(data).value.gameName in findings && IsLowerCase(ParseEvent(data).value.gameName)
    ensures !Grounding.IsGameNotKnown(findings, GetAllBoardGameNames(ProcessGameAddedEvent(data, s, embed)))
  {
    var name := ParseEvent(data).value.gameName;
    LowerFixedIff(name);
    assert Lower(name) in GetAllBoardGameNames(ProcessGameAddedEvent(data, s, embed));
  }

  /** Ingesting into an empty store makes the game's rules the answer to every well-formed query. */
  lemma IngestedRulesAreRetrieved(data: Json, s: Store, embed: Embedder, q: Vec, sim: Similarity)
    requires s.live && s.rows == [] && ParseEvent(data).Success?
    requires Fits(embed(IngestedText(ParseEvent(data).value.gameName))) && Fits(q)
    ensures FindClosestText(ProcessGameAddedEvent(data, s, embed), q, sim)
        == RulesInfo(ParseEvent(data).value.gameName, ParseEvent(data).value.rules)
  {
    var r := ProcessGameAddedEvent(data, s, embed);
    assert |r.rows| == 1;
    assert IsNearest(r.rows, q, sim, 0);
  }

  /** `add_queue_handler`: the entry for `queueName` becomes `handler`; other entries stay. */
  function AddQueueHandler<H>(handlers: map<string, H>, queueName: string, handler: H): (r: map<string, H>)
    ensures r.Keys == handlers.Keys + {queueName}
    ensures r[queueName] == handler
    ensures forall q :: q in handlers && q != queueName ==> r[q] == handlers[q]
  {
    handlers[queueName := handler]
  }

  /** Registering twice under one queue name keeps only the last handler. */
  lemma LastHandlerWins<H>(handlers: map<string, H>, queueName: string, first: H, second: H)
    ensures AddQueueHandler(AddQueueHandler(handlers, queueName, first), queueName, second)
        == AddQueueHandler(handlers, queueName, second)
  {
  }
}
