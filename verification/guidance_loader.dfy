/**
 * The guidance seed loader (chatbot/app/configurations/guidance_loader.py and
 * its older copy chatbot/platform_guidance/guidance_loader.py). Reading the
 * file is a parameter: `None` stands for a file that cannot be opened or is
 * not valid JSON. Every failure while reading entries is swallowed and
 * yields the empty list.
 */
module GuidanceLoader {
  import opened Wrappers
  import opened JsonValue
  import opened Text

  /** The categories of `get_category_map`. */
  const GuidanceCategory: int := 1
  const RulesCategoryId: int := 2

  /** One well-formed entry of the `guidance` list. */
  datatype GuidanceEntry = GuidanceEntry(topic: string, steps: seq<string>)

  /** `data["guidance"]`, when it is a list; any other shape ends in an error or an empty iteration. */
  function GuidanceItems(file: Option<Json>): Option<seq<Json>>
  {
    match file
    case Some(JObj(m)) =>
      if "guidance" in m && m["guidance"].JArr? then Some(m["guidance"].items) else None
    case _ => None
  }

  /** The strings `" ".join(steps)` iterates over: a list of strings, or the characters of one string. */
  function Steps(v: Json): Option<seq<string>>
  {
    match v
    case JStr(s) => Some(Chars(s))
    case JArr(items) =>
      if forall i :: 0 <= i < |items| ==> items[i].JStr? then
        Some(seq(|items|, i requires 0 <= i < |items| => items[i].s))
      else None
    case _ => None
  }

  /** One entry of the `guidance` list: an object with a string `topic` and iterable `steps`. */
  function ParseEntry(item: Json): (r: Option<GuidanceEntry>)
    ensures r.Some? ==> HasTopicField(item) && item.fields["topic"] == JStr(r.value.topic)
  {
    if item.JObj? && "topic" in item.fields && "steps" in item.fields
       && item.fields["topic"].JStr? && Steps(item.fields["steps"]).Some?
    then Some(GuidanceEntry(item.fields["topic"].s, Steps(item.fields["steps"]).value))
    else None
  }

  /** All entries, or None when any one of them is malformed. */
  function ParseEntries(items: seq<Json>): (r: Option<seq<GuidanceEntry>>)
    ensures r.Some? ==> |r.value| == |items|
    ensures r.Some? <==> forall i :: 0 <= i < |items| ==> ParseEntry(items[i]).Some?
    ensures r.Some? ==> forall i :: 0 <= i < |items| ==> r.value[i] == ParseEntry(items[i]).value
  {
    if |items| == 0 then Some([])
    else
      match (ParseEntry(items[0]), ParseEntries(items[1..]))
      case (Some(e), Some(es)) => Some([e] + es)
      case (None, _) => None
      case (_, None) =>
        assert !ParseEntry(items[1..][Witness(items[1..])]).Some?;
        None
  }

  /** The index of a malformed item, for a list that has one. */
  function Witness(items: seq<Json>): (i: nat)
    requires exists i :: 0 <= i < |items| && ParseEntry(items[i]).None?
    ensures i < |items| && ParseEntry(items[i]).None?
  {
    if ParseEntry(items[0]).None? then 0 else Witness(items[1..]) + 1
  }

  /** The text one entry seeds: `"Guidance for {topic}: " + " ".join(steps)`. */
  function SeedText(e: GuidanceEntry): (r: string)
    ensures OccursAt(r, "Guidance for " + e.topic, 0)
    ensures |r| == |"Guidance for "| + |e.topic| + |": "| + |Join(" ", e.steps)|
  {
    SeedTextStartsWithTopic(e);
    "Guidance for " + e.topic + ": " + Join(" ", e.steps)
  }

  /** The file encoding of an entry: `{"topic": ..., "steps": [...]}`. */
  function EntryToJson(e: GuidanceEntry): Json
  {
    JObj(map["topic" := JStr(e.topic), "steps" := JArr(seq(|e.steps|, i requires 0 <= i < |e.steps| => JStr(e.steps[i])))])
  }

  /** Every entry survives being written to the file and parsed back. */
  lemma EntryRoundTrip(e: GuidanceEntry)
    ensures ParseEntry(EntryToJson(e)) == Some(e)
  {
    var items := EntryToJson(e).fields["steps"].items;
    assert Steps(JArr(items)).value == e.steps;
  }

  /** `seed_data`: one seed text per entry in file order, or [] on any failure. */
  function SeedData(file: Option<Json>): (r: seq<string>)
    ensures GuidanceItems(file).None? ==> r == []
    ensures GuidanceItems(file).Some? && ParseEntries(GuidanceItems(file).value).None? ==> r == []
    ensures GuidanceItems(file).Some? && ParseEntries(GuidanceItems(file).value).Some? ==>
      && |r| == |GuidanceItems(file).value|
      && forall i :: 0 <= i < |r| ==>
           var e := ParseEntry(GuidanceItems(file).value[i]).value;
           r[i] == "Guidance for " + e.topic + ": " + Join(" ", e.steps)
  {
    match GuidanceItems(file)
    case None => []
    case Some(items) =>
      match ParseEntries(items)
      case None => []
      case Some(es) => seq(|es|, i requires 0 <= i < |es| => SeedText(es[i]))
  }

  /** The item is an object with a `topic` key, so `guidance["topic"]` does not raise. */
  predicate HasTopicField(item: Json)
  {
    item.JObj? && "topic" in item.fields
  }

  predicate AllHaveTopic(items: seq<Json>)
  {
    forall i :: 0 <= i < |items| ==> HasTopicField(items[i])
  }

  /** `get_topics`: the raw `topic` value of every entry in file order, or [] on any failure. */
  function GetTopics(file: Option<Json>): (r: seq<Json>)
    ensures GuidanceItems(file).None? ==> r == []
    ensures GuidanceItems(file).Some? && AllHaveTopic(GuidanceItems(file).value) ==>
      && |r| == |GuidanceItems(file).value|
      && forall i :: 0 <= i < |r| ==> r[i] == GuidanceItems(file).value[i].fields["topic"]
    ensures GuidanceItems(file).Some? && !AllHaveTopic(GuidanceItems(file).value) ==> r == []
  {
    match GuidanceItems(file)
    case None => []
    case Some(items) =>
      if AllHaveTopic(items)
      then seq(|items|, i requires 0 <= i < |items| => items[i].fields["topic"])
      else []
  }

  /** Appending an entry with a topic to the guidance list appends its topic: topics keep file order. */
  lemma GetTopicsAppend(items: seq<Json>, item: Json, rest: map<string, Json>)
    requires forall i :: 0 <= i < |items| ==> HasTopicField(items[i])
    requires HasTopicField(item)
    ensures GetTopics(Some(JObj(rest["guidance" := JArr(items + [item])])))
         == GetTopics(Some(JObj(rest["guidance" := JArr(items)]))) + [item.fields["topic"]]
  {
    var before := GetTopics(Some(JObj(rest["guidance" := JArr(items)])));
    var after := GetTopics(Some(JObj(rest["guidance" := JArr(items + [item])])));
    assert forall i :: 0 <= i < |items + [item]| ==> HasTopicField((items + [item])[i]);
    assert |after| == |before| + 1;
    forall i | 0 <= i < |after|
      ensures after[i] == (before + [item.fields["topic"]])[i]
    {
      if i < |items| {
        assert (items + [item])[i] == items[i];
      }
    }
  }

  /**
   * `get_topics` and `seed_data` fail independently: an entry with a topic but no
   * steps empties the seeds but still yields its topic.
   */
  lemma TopicsSurviveMissingSteps()
    ensures SeedData(Some(JObj(map["guidance" := JArr([JObj(map["topic" := JStr("login")])])]))) == []
    ensures GetTopics(Some(JObj(map["guidance" := JArr([JObj(map["topic" := JStr("login")])])]))) == [JStr("login")]
  {
    var item := JObj(map["topic" := JStr("login")]);
    assert ParseEntry(item).None?;
    OneBadEntrySpoilsAll(Some(JObj(map["guidance" := JArr([item])])), 0);
  }

  /** `get_category_map`. */
  function CategoryMap(): (m: map<int, string>)
    ensures m.Keys == {GuidanceCategory, RulesCategoryId}
    ensures m[GuidanceCategory] == "guidance" && m[RulesCategoryId] == "rules"
  {
    map[1 := "guidance", 2 := "rules"]
  }

  /** `get_rules_category`: the key the category map sends to "rules". */
  function RulesCategory(): (c: int)
    ensures c in CategoryMap() && CategoryMap()[c] == "rules"
  {
    RulesCategoryId
  }

  /** `get_category_map().get(topic, "unknown")`. */
  function CategoryLabel(topic: int): (l: string)
    ensures l == "guidance" || l == "rules" || l == "unknown"
    ensures l == "unknown" <==> topic !in CategoryMap()
    ensures topic in CategoryMap() ==> l == CategoryMap()[topic]
  {
    if topic in CategoryMap() then CategoryMap()[topic] else "unknown"
  }

  /** The category map is a bijection between ids and labels. */
  lemma CategoryLabelsDistinct(a: int, b: int)
    requires a in CategoryMap() && b in CategoryMap()
    requires CategoryLabel(a) == CategoryLabel(b)
    ensures a == b
  {
  }

  /** Seed texts and topics line up: entry `i` seeds a text that starts with "Guidance for " and its topic. */
  lemma TopicsAlignWithSeeds(file: Option<Json>)
    requires |SeedData(file)| > 0
    ensures |GetTopics(file)| == |SeedData(file)|
    ensures forall i :: 0 <= i < |SeedData(file)| ==>
      GetTopics(file)[i].JStr? &&
      OccursAt(SeedData(file)[i], "Guidance for " + GetTopics(file)[i].s, 0)
  {
    var items := GuidanceItems(file).value;
    var r := SeedData(file);
    var es := ParseEntries(items).value;
    forall i | 0 <= i < |items|
      ensures items[i].JObj? && "topic" in items[i].fields && items[i].fields["topic"] == JStr(es[i].topic)
    {
      assert ParseEntry(items[i]).Some?;
    }
    var topics := GetTopics(file);
    assert |topics| == |items|;
    forall i | 0 <= i < |r|
      ensures topics[i] == JStr(es[i].topic) && r[i] == SeedText(es[i])
    {
    }
    forall i | 0 <= i < |r|
      ensures topics[i].JStr? && OccursAt(r[i], "Guidance for " + topics[i].s, 0)
    {
      SeedTextStartsWithTopic(es[i]);
    }
  }

  /** A seed text starts with "Guidance for " and the entry's topic. */
  lemma SeedTextStartsWithTopic(e: GuidanceEntry)
    ensures OccursAt("Guidance for " + e.topic + ": " + Join(" ", e.steps), "Guidance for " + e.topic, 0)
  {
    var p := "Guidance for " + e.topic;
    var t := "Guidance for " + e.topic + ": " + Join(" ", e.steps);
    assert t == p + (": " + Join(" ", e.steps));
    assert t[0..|p|] == p;
  }

  /** Appending a well-formed entry to the file appends its seed text: entries keep file order. */
  lemma {:induction false} ParseEntriesAppend(items: seq<Json>, item: Json)
    requires ParseEntries(items).Some? && ParseEntry(item).Some?
    ensures ParseEntries(items + [item]) == Some(ParseEntries(items).value + [ParseEntry(item).value])
  {
    if |items| > 0 {
      var all := items + [item];
      assert all[0] == items[0];
      assert all[1..] == items[1..] + [item];
      ParseEntriesAppend(items[1..], item);
      var e0 := ParseEntry(items[0]).value;
      var rest := ParseEntries(items[1..]).value;
      var e := ParseEntry(item).value;
      assert ParseEntries(items) == Some([e0] + rest);
      assert ParseEntries(all) == Some([e0] + (rest + [e]));
      assert [e0] + (rest + [e]) == ([e0] + rest) + [e];
    } else {
      assert items + [item] == [item];
      assert [item][1..] == [];
      assert ParseEntries([item][1..]) == Some([]);
      assert ParseEntries(items).value == [];
      assert ParseEntries([item]) == Some([ParseEntry(item).value] + []);
      assert [ParseEntry(item).value] + [] == ParseEntries(items).value + [ParseEntry(item).value];
    }
  }

  /** A malformed entry anywhere empties the whole seed list. */
  lemma OneBadEntrySpoilsAll(file: Option<Json>, i: int)
    requires GuidanceItems(file).Some?
    requires 0 <= i < |GuidanceItems(file).value| && ParseEntry(GuidanceItems(file).value[i]).None?
    ensures SeedData(file) == []
  {
  }
}
