/**
 * The current revision of the pgvector-backed store
 * (chatbot/app/core/retrieval/vs_postgres_vector.py) as an in-memory table.
 *
 * `vector_data` is a sequence of rows in id order and `game_names` a
 * sequence of distinct names. The similarity `1 - (a <=> b)` is an
 * uninterpreted function `sim`. A store that is not `live` stands for a
 * missing connection or one whose statements raise: every read then yields
 * its default and every write leaves the store as it was, which is what the
 * source's `if self.connection` guards and swallowing `except` blocks give.
 */
module VectorStore {

  /** Width of the `VECTOR(768)` column; a vector of another length makes the statement fail. */
  const Dim: nat := 768

  /** Acceptance threshold of `get_category` (strictly greater is accepted). */
  const SimilarityThreshold: real := 0.3

  /** Topic id of the guidance partition. */
  const GuidanceTopic: int := 1

  type Vec = seq<real>

  /** Cosine similarity of a query vector and a stored embedding, left uninterpreted. */
  type Similarity = (Vec, Vec) -> real

  /** One `vector_data` row. */
  datatype Row = Row(topic: int, text: string, info: string, emb: Vec)

  datatype Store = Store(live: bool, rows: seq<Row>, games: seq<string>)

  /** What `get_category` yields: the string "unknown" or a raw integer topic. */
  datatype Category = Unknown | Topic(id: int)

  predicate Fits(v: Vec) { |v| == Dim }

  predicate NoDuplicates(names: seq<string>)
  {
    forall i, j :: 0 <= i < j < |names| ==> names[i] != names[j]
  }

  /** The table constraints: every embedding fits the column, names are UNIQUE. */
  ghost predicate Valid(s: Store)
  {
    && (forall i :: 0 <= i < |s.rows| ==> Fits(s.rows[i].emb))
    && NoDuplicates(s.games)
  }

  /** Row `i` has a similarity no other row exceeds: one an `ORDER BY similarity DESC LIMIT 1` may return. */
  ghost predicate IsNearest(rows: seq<Row>, q: Vec, sim: Similarity, i: int)
  {
    && 0 <= i < |rows|
    && forall j :: 0 <= j < |rows| ==> sim(q, rows[j].emb) <= sim(q, rows[i].emb)
  }

  /** A row of maximal similarity (the lowest index among ties). */
  function Nearest(rows: seq<Row>, q: Vec, sim: Similarity): (i: nat)
    requires |rows| > 0
    ensures IsNearest(rows, q, sim, i)
  {
    if |rows| == 1 then 0
    else
      var k := Nearest(rows[1..], q, sim) + 1;
      if sim(q, rows[k].emb) <= sim(q, rows[0].emb) then 0 else k
  }

  /** All nearest rows share one similarity score, so "the nearest score" is well defined. */
  lemma NearestScoresAgree(rows: seq<Row>, q: Vec, sim: Similarity, i: int, j: int)
    requires IsNearest(rows, q, sim, i) && IsNearest(rows, q, sim, j)
    ensures sim(q, rows[i].emb) == sim(q, rows[j].emb)
  {
  }

  /** A query statement fails when the store is unusable or the query vector does not fit a non-empty table. */
  predicate QueryFails(s: Store, q: Vec)
  {
    !s.live || (|s.rows| > 0 && !Fits(q))
  }

  /** `upload_data`: append one row, or change nothing when the INSERT fails. */
  function UploadData(s: Store, text: string, info: string, emb: Vec, topic: int): (r: Store)
    ensures r.live == s.live && r.games == s.games
    ensures !s.live || !Fits(emb) ==> r == s
    ensures s.live && Fits(emb) ==>
      && |r.rows| == |s.rows| + 1
      && r.rows[..|s.rows|] == s.rows
      && r.rows[|s.rows|] == Row(topic, text, info, emb)
  {
    if s.live && Fits(emb) then s.(rows := s.rows + [Row(topic, text, info, emb)]) else s
  }

  /** `find_closest_text`: the `info` of a nearest row, or "" when there is none or the query fails. */
  function FindClosestText(s: Store, q: Vec, sim: Similarity): (r: string)
    ensures QueryFails(s, q) || |s.rows| == 0 ==> r == ""
    ensures !QueryFails(s, q) && |s.rows| > 0 ==>
      exists i :: IsNearest(s.rows, q, sim, i) && r == s.rows[i].info
  {
    if QueryFails(s, q) || |s.rows| == 0 then ""
    else s.rows[Nearest(s.rows, q, sim)].info
  }

  /** `get_category`: the raw topic of a nearest row when its similarity is above 0.3, otherwise Unknown. */
  function GetCategory(s: Store, q: Vec, sim: Similarity): (c: Category)
    ensures c.Topic? <==>
      && !QueryFails(s, q)
      && (exists i :: IsNearest(s.rows, q, sim, i) && sim(q, s.rows[i].emb) > SimilarityThreshold)
    ensures c.Topic? ==>
      exists i :: IsNearest(s.rows, q, sim, i) && s.rows[i].topic == c.id
  {
    if QueryFails(s, q) || |s.rows| == 0 then Unknown
    else
      var i := Nearest(s.rows, q, sim);
      if sim(q, s.rows[i].emb) > SimilarityThreshold then Topic(s.rows[i].topic) else Unknown
  }

  /** A nearest similarity of exactly 0.3 is rejected. */
  lemma ThresholdIsStrict(s: Store, q: Vec, sim: Similarity, i: int)
    requires IsNearest(s.rows, q, sim, i)
    requires sim(q, s.rows[i].emb) == SimilarityThreshold
    ensures GetCategory(s, q, sim) == Unknown
  {
  }

  /** Classification and retrieval agree on emptiness: an accepted topic implies a retrieval from the same table. */
  lemma CategoryImpliesRetrieval(s: Store, q: Vec, sim: Similarity)
    requires GetCategory(s, q, sim).Topic?
    ensures exists i :: IsNearest(s.rows, q, sim, i) && FindClosestText(s, q, sim) == s.rows[i].info
  {
  }

  /** Some row of `rows` carries `topic`. */
  predicate HasTopic(rows: seq<Row>, topic: int)
  {
    exists i :: 0 <= i < |rows| && rows[i].topic == topic
  }

  /** `SELECT COUNT(*) FROM vector_data WHERE topic = t`, counted from the end of the table. */
  function CountTopic(rows: seq<Row>, topic: int): (n: nat)
    ensures n <= |rows|
    ensures n > 0 <==> HasTopic(rows, topic)
  {
    if |rows| == 0 then 0
    else
      var init := rows[..|rows| - 1];
      assert forall i :: 0 <= i < |init| ==> init[i] == rows[i];
      CountTopic(init, topic) + (if rows[|rows| - 1].topic == topic then 1 else 0)
  }

  /** `contains_guidance_data`: whether the topic-1 count is positive; false when the count query fails. */
  function ContainsGuidanceData(s: Store): (r: bool)
    ensures r <==> s.live && exists i :: 0 <= i < |s.rows| && s.rows[i].topic == GuidanceTopic
  {
    s.live && CountTopic(s.rows, GuidanceTopic) > 0
  }

  /** A committed `upload_data` adds one to the count of its topic and leaves every other count alone. */
  lemma UploadDataCounts(s: Store, text: string, info: string, emb: Vec, topic: int, t: int)
    ensures CountTopic(UploadData(s, text, info, emb, topic).rows, t)
         == CountTopic(s.rows, t) + (if s.live && Fits(emb) && topic == t then 1 else 0)
  {
    var r := UploadData(s, text, info, emb, topic);
    if s.live && Fits(emb) {
      assert r.rows[..|r.rows| - 1] == s.rows;
    }
  }

  /** Which writes change the answer of `contains_guidance_data`: only a committed topic-1 upload, which sets it. */
  lemma GuidanceFlagAfterWrites(s: Store, text: string, info: string, emb: Vec, topic: int, name: string)
    ensures ContainsGuidanceData(UploadGameName(s, name)) == ContainsGuidanceData(s)
    ensures topic != GuidanceTopic ==>
      ContainsGuidanceData(UploadData(s, text, info, emb, topic)) == ContainsGuidanceData(s)
    ensures s.live && Fits(emb) && topic == GuidanceTopic ==>
      ContainsGuidanceData(UploadData(s, text, info, emb, topic))
  {
    UploadDataCounts(s, text, info, emb, topic, GuidanceTopic);
  }

  /** `upload_game_name`: a new name is appended; a duplicate violates UNIQUE and is swallowed. */
  function UploadGameName(s: Store, name: string): (r: Store)
    ensures r.live == s.live && r.rows == s.rows
    ensures s.live ==> name in r.games
    ensures !s.live || name in s.games ==> r == s
    ensures forall n :: n in r.games <==> n in s.games || (s.live && n == name)
    ensures NoDuplicates(s.games) ==> NoDuplicates(r.games)
  {
    if s.live && name !in s.games then s.(games := s.games + [name]) else s
  }

  /** `get_all_board_game_names`: the stored names, without repetition; [] when the query fails. */
  function GetAllBoardGameNames(s: Store): (r: seq<string>)
    ensures !s.live ==> r == []
    ensures s.live ==> forall n :: n in r <==> n in s.games
    ensures Valid(s) ==> NoDuplicates(r)
  {
    if s.live then s.games else []
  }

  /** Registering a name is idempotent. */
  lemma UploadGameNameIdempotent(s: Store, name: string)
    ensures UploadGameName(UploadGameName(s, name), name) == UploadGameName(s, name)
  {
  }

  /** Writes keep the table constraints. */
  lemma WritesPreserveValid(s: Store, text: string, info: string, emb: Vec, topic: int, name: string)
    requires Valid(s)
    ensures Valid(UploadData(s, text, info, emb, topic))
    ensures Valid(UploadGameName(s, name))
  {
  }
}
