/**
 * The older revision of the store (chatbot/core/vector_search/vs_postgres_vector.py):
 * rows carry no `info`, nearest means smallest L2 distance `<->` (left
 * uninterpreted as `dist`), the category is mapped through the category map,
 * and the guidance seeds are loaded once, gated on the presence of any
 * topic-1 row, by plain appends.
 */
module LegacyVectorStore {
  import VS = VectorStore
  import GuidanceLoader

  /** Threshold the old `get_category` compares the distance against (`>=` accepts). */
  const DistanceThreshold: real := 0.5

  /** L2 distance between a query vector and a stored embedding, left uninterpreted. */
  type Distance = (VS.Vec, VS.Vec) -> real

  datatype Row = Row(topic: int, text: string, emb: VS.Vec)

  datatype Store = Store(live: bool, rows: seq<Row>)

  /** Row `i` has a distance no other row undercuts: one an `ORDER BY distance ASC LIMIT 1` may return. */
  ghost predicate IsClosest(rows: seq<Row>, q: VS.Vec, dist: Distance, i: int)
  {
    && 0 <= i < |rows|
    && forall j :: 0 <= j < |rows| ==> dist(q, rows[i].emb) <= dist(q, rows[j].emb)
  }

  /** A row of minimal distance (the lowest index among ties). */
  function Closest(rows: seq<Row>, q: VS.Vec, dist: Distance): (i: nat)
    requires |rows| > 0
    ensures IsClosest(rows, q, dist, i)
  {
    if |rows| == 1 then 0
    else
      var k := Closest(rows[1..], q, dist) + 1;
      if dist(q, rows[0].emb) <= dist(q, rows[k].emb) then 0 else k
  }

  predicate QueryFails(s: Store, q: VS.Vec)
  {
    !s.live || (|s.rows| > 0 && !VS.Fits(q))
  }

  /** The rows `upload_data` would insert: `zip(texts, embeddings)` truncates to the shorter list. */
  function Zipped(texts: seq<string>, embs: seq<VS.Vec>, topic: int): (r: seq<Row>)
    ensures |r| == if |texts| <= |embs| then |texts| else |embs|
    ensures forall i :: 0 <= i < |r| ==> r[i] == Row(topic, texts[i], embs[i])
  {
    var n := if |texts| <= |embs| then |texts| else |embs|;
    seq(n, i requires 0 <= i < n => Row(topic, texts[i], embs[i]))
  }

  /** The whole batch fits the column; one misfit aborts the batch before the commit. */
  predicate AllFit(rows: seq<Row>)
  {
    forall i :: 0 <= i < |rows| ==> VS.Fits(rows[i].emb)
  }

  /** `upload_data`: append min(|texts|, |embeddings|) rows of the given topic, or nothing. */
  function UploadData(s: Store, texts: seq<string>, embs: seq<VS.Vec>, topic: int): (r: Store)
    ensures r.live == s.live
    ensures |r.rows| >= |s.rows| && r.rows[..|s.rows|] == s.rows
    ensures r != s ==> |r.rows| - |s.rows| == (if |texts| <= |embs| then |texts| else |embs|)
    ensures forall i :: |s.rows| <= i < |r.rows| ==>
      r.rows[i].topic == topic && r.rows[i].text == texts[i - |s.rows|]
    ensures s.live && AllFit(Zipped(texts, embs, topic)) ==> r.rows == s.rows + Zipped(texts, embs, topic)
    ensures !(s.live && AllFit(Zipped(texts, embs, topic))) ==> r == s
  {
    var added := Zipped(texts, embs, topic);
    if s.live && AllFit(added) then
      var r := s.(rows := s.rows + added);
      assert r.rows[..|s.rows|] == s.rows;
      r
    else s
  }

  /** Old `find_closest_text`: the `text` of a closest row, or "" when there is none or the query fails. */
  function FindClosestText(s: Store, q: VS.Vec, dist: Distance): (r: string)
    ensures QueryFails(s, q) || |s.rows| == 0 ==> r == ""
    ensures !QueryFails(s, q) && |s.rows| > 0 ==>
      exists i :: IsClosest(s.rows, q, dist, i) && r == s.rows[i].text
  {
    if QueryFails(s, q) || |s.rows| == 0 then ""
    else s.rows[Closest(s.rows, q, dist)].text
  }

  /**
   * Old `get_category`: a closest row is accepted when its distance is AT LEAST
   * 0.5 (the comparison the code makes), and its topic is mapped through the
   * category map with "unknown" as default.
   */
  function GetCategory(s: Store, q: VS.Vec, dist: Distance): (category: string)
    ensures category == "guidance" || category == "rules" || category == "unknown"
    ensures QueryFails(s, q) || |s.rows| == 0 ==> category == "unknown"
    ensures category != "unknown" ==>
      exists i :: IsClosest(s.rows, q, dist, i)
        && dist(q, s.rows[i].emb) >= DistanceThreshold
        && s.rows[i].topic in GuidanceLoader.CategoryMap()
        && category == GuidanceLoader.CategoryMap()[s.rows[i].topic]
    ensures !QueryFails(s, q) && |s.rows| > 0 ==>
      forall i :: IsClosest(s.rows, q, dist, i) && dist(q, s.rows[i].emb) < DistanceThreshold ==> category == "unknown"
    ensures !QueryFails(s, q) && (exists i :: IsClosest(s.rows, q, dist, i) && dist(q, s.rows[i].emb) >= DistanceThreshold) ==>
      exists i :: IsClosest(s.rows, q, dist, i) && category == GuidanceLoader.CategoryLabel(s.rows[i].topic)
  {
    if QueryFails(s, q) || |s.rows| == 0 then "unknown"
    else
      var i := Closest(s.rows, q, dist);
      if dist(q, s.rows[i].emb) >= DistanceThreshold then GuidanceLoader.CategoryLabel(s.rows[i].topic)
      else "unknown"
  }

  /**
   * A closest distance of exactly 0.5 is accepted: when the closest rows agree
   * on a topic, the category is that topic's label.
   */
  lemma ThresholdIsInclusive(s: Store, q: VS.Vec, dist: Distance, i: int)
    requires !QueryFails(s, q)
    requires IsClosest(s.rows, q, dist, i) && dist(q, s.rows[i].emb) == DistanceThreshold
    requires forall j :: IsClosest(s.rows, q, dist, j) ==> s.rows[j].topic == s.rows[i].topic
    ensures GetCategory(s, q, dist) == GuidanceLoader.CategoryLabel(s.rows[i].topic)
  {
    var k := Closest(s.rows, q, dist);
    assert dist(q, s.rows[k].emb) == dist(q, s.rows[i].emb);
  }

  /** An accepted category implies retrieval returns the text of a closest row at distance at least 0.5. */
  lemma CategoryImpliesRetrieval(s: Store, q: VS.Vec, dist: Distance)
    requires GetCategory(s, q, dist) != "unknown"
    ensures exists i :: (IsClosest(s.rows, q, dist, i)
      && dist(q, s.rows[i].emb) >= DistanceThreshold
      && FindClosestText(s, q, dist) == s.rows[i].text)
  {
    var k := Closest(s.rows, q, dist);
    assert FindClosestText(s, q, dist) == s.rows[k].text;
  }

  /** `SELECT COUNT(*) FROM vector_data WHERE topic = t`, counted from the end of the table. */
  function CountTopic(rows: seq<Row>, topic: int): (n: nat)
    ensures n <= |rows|
    ensures n > 0 <==> exists i :: 0 <= i < |rows| && rows[i].topic == topic
  {
    if |rows| == 0 then 0
    else
      var init := rows[..|rows| - 1];
      assert forall i :: 0 <= i < |init| ==> init[i] == rows[i];
      CountTopic(init, topic) + (if rows[|rows| - 1].topic == topic then 1 else 0)
  }

  /** Counting distributes over concatenation. */
  lemma {:induction false} CountTopicAppend(xs: seq<Row>, ys: seq<Row>, topic: int)
    ensures CountTopic(xs + ys, topic) == CountTopic(xs, topic) + CountTopic(ys, topic)
  {
    if |ys| > 0 {
      var init := ys[..|ys| - 1];
      CountTopicAppend(xs, init, topic);
      assert (xs + ys)[..|xs + ys| - 1] == xs + init;
    } else {
      assert xs + ys == xs;
    }
  }

  /** Every row of a batch of one topic is counted. */
  lemma {:induction false} CountUniform(ys: seq<Row>, topic: int)
    requires forall i :: 0 <= i < |ys| ==> ys[i].topic == topic
    ensures CountTopic(ys, topic) == |ys|
  {
    if |ys| > 0 {
      CountUniform(ys[..|ys| - 1], topic);
    }
  }

  /** Old `contains_guidance_data`: the topic-1 count is positive; false when the query fails. */
  function ContainsGuidanceData(s: Store): (r: bool)
    ensures r <==> s.live && exists i :: 0 <= i < |s.rows| && s.rows[i].topic == VS.GuidanceTopic
  {
    s.live && CountTopic(s.rows, VS.GuidanceTopic) > 0
  }

  /** The store is usable and every seed embedding fits the column. */
  predicate SeedsFit(s: Store, seeds: seq<string>, embed: string -> VS.Vec)
  {
    s.live && forall i :: 0 <= i < |seeds| ==> VS.Fits(embed(seeds[i]))
  }

  /** Old `upload_guidance_data`: append one topic-1 row per seed text, embedded in one batch. */
  function UploadGuidanceData(s: Store, seeds: seq<string>, embed: string -> VS.Vec): (r: Store)
    ensures r.live == s.live
    ensures SeedsFit(s, seeds, embed) ==>
      && |r.rows| == |s.rows| + |seeds| && r.rows[..|s.rows|] == s.rows
      && forall i :: 0 <= i < |seeds| ==> r.rows[|s.rows| + i] == Row(VS.GuidanceTopic, seeds[i], embed(seeds[i]))
    ensures !SeedsFit(s, seeds, embed) ==> r == s
  {
    UploadData(s, seeds, seq(|seeds|, i requires 0 <= i < |seeds| => embed(seeds[i])), VS.GuidanceTopic)
  }

  /** `ensure_guidance_data`: upload the seeds only when no topic-1 row exists. */
  function EnsureGuidanceData(s: Store, seeds: seq<string>, embed: string -> VS.Vec): (r: Store)
    ensures ContainsGuidanceData(s) ==> r == s
    ensures !ContainsGuidanceData(s) ==> r == UploadGuidanceData(s, seeds, embed)
  {
    if ContainsGuidanceData(s) then s else UploadGuidanceData(s, seeds, embed)
  }

  /** Ensuring twice is ensuring once. */
  lemma EnsureGuidanceDataIdempotent(s: Store, seeds: seq<string>, embed: string -> VS.Vec)
    ensures EnsureGuidanceData(EnsureGuidanceData(s, seeds, embed), seeds, embed) == EnsureGuidanceData(s, seeds, embed)
  {
    var once := EnsureGuidanceData(s, seeds, embed);
    if !ContainsGuidanceData(s) && once != s {
      assert |seeds| > 0;
      assert once.rows[|s.rows|].topic == VS.GuidanceTopic;
    }
  }

  /** When the gate opens on a usable store with fitting embeddings, every seed text becomes one topic-1 row. */
  lemma EnsureAppendsEverySeed(s: Store, seeds: seq<string>, embed: string -> VS.Vec)
    requires SeedsFit(s, seeds, embed) && !ContainsGuidanceData(s)
    ensures |EnsureGuidanceData(s, seeds, embed).rows| == |s.rows| + |seeds|
    ensures forall i :: 0 <= i < |seeds| ==>
      EnsureGuidanceData(s, seeds, embed).rows[|s.rows| + i] == Row(VS.GuidanceTopic, seeds[i], embed(seeds[i]))
  {
    var r := EnsureGuidanceData(s, seeds, embed);
    assert r == UploadGuidanceData(s, seeds, embed);
    assert |r.rows| == |s.rows| + |seeds|;
  }

  /** A committed seed upload adds exactly one topic-1 row per seed to the count. */
  lemma UploadCountsEverySeed(s: Store, seeds: seq<string>, embed: string -> VS.Vec)
    requires SeedsFit(s, seeds, embed)
    ensures CountTopic(UploadGuidanceData(s, seeds, embed).rows, VS.GuidanceTopic)
         == CountTopic(s.rows, VS.GuidanceTopic) + |seeds|
  {
    var embs := seq(|seeds|, i requires 0 <= i < |seeds| => embed(seeds[i]));
    var added := Zipped(seeds, embs, VS.GuidanceTopic);
    assert AllFit(added);
    assert UploadGuidanceData(s, seeds, embed).rows == s.rows + added;
    CountTopicAppend(s.rows, added, VS.GuidanceTopic);
    CountUniform(added, VS.GuidanceTopic);
  }

  /** Once a non-empty seed list is uploaded, the gate stays shut. */
  lemma EnsureClosesGate(s: Store, seeds: seq<string>, embed: string -> VS.Vec)
    requires SeedsFit(s, seeds, embed) && |seeds| > 0
    ensures ContainsGuidanceData(EnsureGuidanceData(s, seeds, embed))
  {
    if !ContainsGuidanceData(s) {
      UploadCountsEverySeed(s, seeds, embed);
    }
  }
}
