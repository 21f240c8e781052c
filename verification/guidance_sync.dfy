/**
 * The staged diff-and-merge of `upload_guidance_data` in the current
 * revision (chatbot/app/core/retrieval/vs_postgres_vector.py, lines 163-238):
 * the seed entries are staged as topic-1 rows, then three statements run
 * against `vector_data` and one commit publishes them together.
 *
 *   delete  rows with topic 1 whose `info` is not a staged info;
 *   update  every row (of any topic) whose `info` equals a staged info gets
 *           the staged `text` and embedding;
 *   insert  every staged row whose `text` no row of any topic has yet.
 */
module GuidanceSync {
  import opened Wrappers
  import opened VectorStore

  /** One seed entry: `text` is embedded and handed to generation, `info` is its key. */
  datatype Seed = Seed(text: string, info: string)

  /** The embedding model, left uninterpreted. */
  type Embedder = string -> Vec

  /** The staging table: one topic-1 row per seed, in seed order. */
  function Stage(seeds: seq<Seed>, embed: Embedder): (staged: seq<Row>)
    ensures |staged| == |seeds|
    ensures forall k :: 0 <= k < |seeds| ==>
      staged[k] == Row(GuidanceTopic, seeds[k].text, seeds[k].info, embed(seeds[k].text))
  {
    seq(|seeds|, k requires 0 <= k < |seeds| =>
      Row(GuidanceTopic, seeds[k].text, seeds[k].info, embed(seeds[k].text)))
  }

  /** Some row of `rows` is keyed by `info`. */
  predicate HasInfo(rows: seq<Row>, info: string)
  {
    exists k :: 0 <= k < |rows| && rows[k].info == info
  }

  /** Some row of `rows` holds `text`. */
  predicate HasText(rows: seq<Row>, text: string)
  {
    exists k :: 0 <= k < |rows| && rows[k].text == text
  }

  /** No two staged rows share an `info`; otherwise `UPDATE ... FROM` may pick either. */
  predicate DistinctInfos(staged: seq<Row>)
  {
    forall k, l :: 0 <= k < l < |staged| ==> staged[k].info != staged[l].info
  }

  predicate DistinctSeedInfos(seeds: seq<Seed>)
  {
    forall k, l :: 0 <= k < l < |seeds| ==> seeds[k].info != seeds[l].info
  }

  /** The row the delete step removes. */
  predicate IsStale(x: Row, staged: seq<Row>)
  {
    x.topic == GuidanceTopic && !HasInfo(staged, x.info)
  }

  /** Step 3: remove stale guidance rows; every other row keeps its multiplicity. */
  function DeleteStale(rows: seq<Row>, staged: seq<Row>): (r: seq<Row>)
    ensures forall x :: multiset(r)[x] == if IsStale(x, staged) then 0 else multiset(rows)[x]
  {
    if |rows| == 0 then []
    else
      var rest := DeleteStale(rows[1..], staged);
      assert rows == [rows[0]] + rows[1..];
      if IsStale(rows[0], staged) then rest else [rows[0]] + rest
  }

  /** What survives the delete step is a non-stale row of the table. */
  lemma DeleteStaleMembers(rows: seq<Row>, staged: seq<Row>)
    ensures forall i :: 0 <= i < |DeleteStale(rows, staged)| ==>
      DeleteStale(rows, staged)[i] in rows && !IsStale(DeleteStale(rows, staged)[i], staged)
  {
    var d := DeleteStale(rows, staged);
    forall i | 0 <= i < |d|
      ensures d[i] in rows && !IsStale(d[i], staged)
    {
      assert multiset(d)[d[i]] > 0;
    }
  }

  /** A row of the table that is not stale survives the delete step. */
  lemma DeleteStaleKeeps(rows: seq<Row>, staged: seq<Row>, x: Row)
    requires x in rows && !IsStale(x, staged)
    ensures x in DeleteStale(rows, staged)
  {
    assert multiset(DeleteStale(rows, staged))[x] > 0;
  }

  /** The first staged row keyed by `info`. */
  function Match(staged: seq<Row>, info: string): (m: Option<Row>)
    ensures m.None? <==> !HasInfo(staged, info)
    ensures m.Some? ==> exists k :: 0 <= k < |staged| && staged[k] == m.value && m.value.info == info
  {
    if |staged| == 0 then None
    else if staged[0].info == info then Some(staged[0])
    else
      var m := Match(staged[1..], info);
      assert HasInfo(staged, info) ==> HasInfo(staged[1..], info) by {
        if HasInfo(staged, info) {
          var k :| 0 <= k < |staged| && staged[k].info == info;
          assert staged[1..][k - 1].info == info;
        }
      }
      m
  }

  /** Under distinct infos the match of a staged row's own info is that row. */
  lemma MatchIsUnique(staged: seq<Row>, k: int)
    requires DistinctInfos(staged) && 0 <= k < |staged|
    ensures Match(staged, staged[k].info) == Some(staged[k])
  {
  }

  function UpdateRow(x: Row, staged: seq<Row>): Row
  {
    match Match(staged, x.info)
    case None => x
    case Some(st) => x.(text := st.text, emb := st.emb)
  }

  /** Step 4: rows keyed by a staged `info` take its text and embedding, whatever their topic. */
  function UpdateMatching(rows: seq<Row>, staged: seq<Row>): (r: seq<Row>)
    requires DistinctInfos(staged)
    ensures |r| == |rows|
    ensures forall i :: 0 <= i < |rows| ==> r[i].topic == rows[i].topic && r[i].info == rows[i].info
    ensures forall i, k :: 0 <= i < |rows| && 0 <= k < |staged| && staged[k].info == rows[i].info ==>
      r[i].text == staged[k].text && r[i].emb == staged[k].emb
    ensures forall i :: 0 <= i < |rows| && !HasInfo(staged, rows[i].info) ==> r[i] == rows[i]
  {
    var r := seq(|rows|, i requires 0 <= i < |rows| => UpdateRow(rows[i], staged));
    forall i, k | 0 <= i < |rows| && 0 <= k < |staged| && staged[k].info == rows[i].info
      ensures r[i].text == staged[k].text && r[i].emb == staged[k].emb
    {
      MatchIsUnique(staged, k);
    }
    r
  }

  /** The staged rows whose text `rows` does not hold yet, in staging order. */
  function Fresh(staged: seq<Row>, rows: seq<Row>): (r: seq<Row>)
    ensures forall x :: multiset(r)[x] == if HasText(rows, x.text) then 0 else multiset(staged)[x]
  {
    if |staged| == 0 then []
    else
      var rest := Fresh(staged[1..], rows);
      assert staged == [staged[0]] + staged[1..];
      if HasText(rows, staged[0].text) then rest else [staged[0]] + rest
  }

  /** Step 5: append the staged rows whose text no row has yet. */
  function InsertNew(rows: seq<Row>, staged: seq<Row>): (r: seq<Row>)
    ensures |r| >= |rows| && r[..|rows|] == rows
    ensures forall k :: 0 <= k < |staged| ==> HasText(r, staged[k].text)
    ensures forall j :: |rows| <= j < |r| ==> r[j] in staged && !HasText(rows, r[j].text)
    ensures forall x :: multiset(r[|rows|..])[x] == if HasText(rows, x.text) then 0 else multiset(staged)[x]
  {
    var added := Fresh(staged, rows);
    var r := rows + added;
    assert r[|rows|..] == added;
    forall k | 0 <= k < |staged|
      ensures HasText(r, staged[k].text)
    {
      if !HasText(rows, staged[k].text) {
        assert multiset(added)[staged[k]] > 0;
        var j :| 0 <= j < |added| && added[j] == staged[k];
        assert r[|rows| + j] == staged[k];
      } else {
        var i :| 0 <= i < |rows| && rows[i].text == staged[k].text;
        assert r[i] == rows[i];
      }
    }
    forall j | |rows| <= j < |r|
      ensures r[j] in staged && !HasText(rows, r[j].text)
    {
      assert r[j] == added[j - |rows|];
      assert multiset(added)[r[j]] > 0;
    }
    r
  }

  /** Steps 3-5 in order. */
  function Synchronize(rows: seq<Row>, staged: seq<Row>): (r: seq<Row>)
    requires DistinctInfos(staged)
    ensures forall k :: 0 <= k < |staged| ==> HasText(r, staged[k].text)
    ensures forall i :: 0 <= i < |r| ==> !IsStale(r[i], staged)
  {
    var u := UpdateMatching(DeleteStale(rows, staged), staged);
    DeleteStaleMembers(rows, staged);
    InsertKeepsFresh(u, staged);
    InsertNew(u, staged)
  }

  /** The insert step adds no stale row: every appended row carries a staged info. */
  lemma InsertKeepsFresh(u: seq<Row>, staged: seq<Row>)
    requires forall i :: 0 <= i < |u| ==> !IsStale(u[i], staged)
    ensures forall i :: 0 <= i < |InsertNew(u, staged)| ==> !IsStale(InsertNew(u, staged)[i], staged)
  {
    var r := InsertNew(u, staged);
    forall i | 0 <= i < |r|
      ensures !IsStale(r[i], staged)
    {
      if i < |u| {
        assert r[..|u|][i] == u[i];
      } else {
        var l :| 0 <= l < |staged| && staged[l] == r[i];
      }
    }
  }

  /** No row is stale and every row keyed by a staged info already carries its text and embedding. */
  ghost predicate Current(rows: seq<Row>, staged: seq<Row>)
  {
    && (forall i :: 0 <= i < |rows| ==> !IsStale(rows[i], staged))
    && (forall i, k :: 0 <= i < |rows| && 0 <= k < |staged| && staged[k].info == rows[i].info ==>
          rows[i].text == staged[k].text && rows[i].emb == staged[k].emb)
  }

  /** A table the three steps leave alone: current, and every staged text present. */
  ghost predicate Synced(rows: seq<Row>, staged: seq<Row>)
  {
    Current(rows, staged) && forall k :: 0 <= k < |staged| ==> HasText(rows, staged[k].text)
  }

  lemma {:induction false} DeleteNothing(rows: seq<Row>, staged: seq<Row>)
    requires forall i :: 0 <= i < |rows| ==> !IsStale(rows[i], staged)
    ensures DeleteStale(rows, staged) == rows
  {
    if |rows| > 0 {
      DeleteNothing(rows[1..], staged);
      assert rows == [rows[0]] + rows[1..];
    }
  }

  /** After the delete and update steps the table is current. */
  lemma DeleteUpdateIsCurrent(rows: seq<Row>, staged: seq<Row>)
    requires DistinctInfos(staged)
    ensures Current(UpdateMatching(DeleteStale(rows, staged), staged), staged)
  {
    DeleteStaleMembers(rows, staged);
  }

  /** Appending staged guidance rows keeps a table current. */
  lemma InsertKeepsCurrent(u: seq<Row>, staged: seq<Row>)
    requires DistinctInfos(staged)
    requires forall k :: 0 <= k < |staged| ==> staged[k].topic == GuidanceTopic
    requires Current(u, staged)
    ensures Current(InsertNew(u, staged), staged)
  {
    var r := InsertNew(u, staged);
    forall i | |u| <= i < |r|
      ensures !IsStale(r[i], staged)
      ensures forall k :: 0 <= k < |staged| && staged[k].info == r[i].info ==>
        r[i].text == staged[k].text && r[i].emb == staged[k].emb
    {
      var l :| 0 <= l < |staged| && staged[l] == r[i];
    }
    forall i | 0 <= i < |u|
      ensures r[i] == u[i]
    {
      assert r[..|u|][i] == u[i];
    }
  }

  /** One synchronisation leaves the table synced. */
  lemma SynchronizeIsSynced(rows: seq<Row>, staged: seq<Row>)
    requires DistinctInfos(staged)
    requires forall k :: 0 <= k < |staged| ==> staged[k].topic == GuidanceTopic
    ensures Synced(Synchronize(rows, staged), staged)
  {
    DeleteUpdateIsCurrent(rows, staged);
    InsertKeepsCurrent(UpdateMatching(DeleteStale(rows, staged), staged), staged);
  }

  /** A synced table is a fixed point of the three steps. */
  lemma SyncedIsFixedPoint(rows: seq<Row>, staged: seq<Row>)
    requires DistinctInfos(staged)
    requires Synced(rows, staged)
    ensures Synchronize(rows, staged) == rows
  {
    DeleteNothing(rows, staged);
    var u := UpdateMatching(rows, staged);
    forall i | 0 <= i < |rows|
      ensures u[i] == rows[i]
    {
      if HasInfo(staged, rows[i].info) {
        var k :| 0 <= k < |staged| && staged[k].info == rows[i].info;
      }
    }
    assert u == rows;
    var added := Fresh(staged, rows);
    assert multiset(added) == multiset{} by {
      forall x
        ensures multiset(added)[x] == 0
      {
        if x in staged {
          var k :| 0 <= k < |staged| && staged[k] == x;
        }
      }
    }
    assert added == [];
  }

  /** The synchronisation commits: the store is usable and every seed embedding fits the column. */
  predicate SyncCommits(s: Store, seeds: seq<Seed>, embed: Embedder)
  {
    s.live && forall k :: 0 <= k < |seeds| ==> Fits(embed(seeds[k].text))
  }

  /**
   * `upload_guidance_data`: stage the seeds and run steps 3-5 as one unit.
   * When staging fails (a seed embedding that does not fit `VECTOR(768)`) or the
   * store is unusable, nothing is committed.
   */
  function UploadGuidanceData(s: Store, seeds: seq<Seed>, embed: Embedder): (r: Store)
    requires DistinctSeedInfos(seeds)
    ensures r.live == s.live && r.games == s.games
    ensures !SyncCommits(s, seeds, embed) ==> r == s
    ensures SyncCommits(s, seeds, embed) ==> forall k :: 0 <= k < |seeds| ==> HasText(r.rows, seeds[k].text)
    ensures SyncCommits(s, seeds, embed) ==>
      forall i :: 0 <= i < |r.rows| && r.rows[i].topic == GuidanceTopic ==>
        exists k :: 0 <= k < |seeds| && r.rows[i].info == seeds[k].info
  {
    if !SyncCommits(s, seeds, embed) then s
    else
      var staged := Stage(seeds, embed);
      SynchronizeIsSynced(s.rows, staged);
      s.(rows := Synchronize(s.rows, staged))
  }

  /** The synchronisation keeps the table constraints. */
  lemma UploadGuidanceDataValid(s: Store, seeds: seq<Seed>, embed: Embedder)
    requires DistinctSeedInfos(seeds)
    requires Valid(s)
    ensures Valid(UploadGuidanceData(s, seeds, embed))
  {
    if SyncCommits(s, seeds, embed) {
      var staged := Stage(seeds, embed);
      var d := DeleteStale(s.rows, staged);
      DeleteStaleMembers(s.rows, staged);
      var u := UpdateMatching(d, staged);
      forall i | 0 <= i < |u|
        ensures Fits(u[i].emb)
      {
        if HasInfo(staged, d[i].info) {
          var k :| 0 <= k < |staged| && staged[k].info == d[i].info;
        }
      }
      var r := InsertNew(u, staged);
      forall i | 0 <= i < |r|
        ensures Fits(r[i].emb)
      {
        if i < |u| {
          assert r[..|u|][i] == u[i];
        }
      }
    }
  }

  /** Running the synchronisation twice with the same seeds is the same as running it once. */
  lemma UploadGuidanceDataIdempotent(s: Store, seeds: seq<Seed>, embed: Embedder)
    requires DistinctSeedInfos(seeds)
    ensures UploadGuidanceData(UploadGuidanceData(s, seeds, embed), seeds, embed)
         == UploadGuidanceData(s, seeds, embed)
  {
    if SyncCommits(s, seeds, embed) {
      var staged := Stage(seeds, embed);
      SynchronizeIsSynced(s.rows, staged);
      SyncedIsFixedPoint(Synchronize(s.rows, staged), staged);
    }
  }

  /** A row that is not stale survives update and insert with its topic and info, and unchanged when no seed is keyed by its info. */
  lemma SurvivorKeepsKeys(rows: seq<Row>, staged: seq<Row>, x: Row) returns (j: nat)
    requires DistinctInfos(staged)
    requires x in rows && !IsStale(x, staged)
    ensures j < |Synchronize(rows, staged)|
    ensures Synchronize(rows, staged)[j].topic == x.topic && Synchronize(rows, staged)[j].info == x.info
    ensures !HasInfo(staged, x.info) ==> Synchronize(rows, staged)[j] == x
  {
    var d := DeleteStale(rows, staged);
    DeleteStaleKeeps(rows, staged, x);
    var i :| 0 <= i < |d| && d[i] == x;
    var u := UpdateMatching(d, staged);
    var r := InsertNew(u, staged);
    assert r == Synchronize(rows, staged);
    assert r[..|u|][i] == u[i];
    j := i;
  }

  /** Rows of other topics are never deleted, and never change topic or info. */
  lemma OtherTopicsKeepTheirKeys(s: Store, seeds: seq<Seed>, embed: Embedder, x: Row)
    requires DistinctSeedInfos(seeds)
    requires x in s.rows && x.topic != GuidanceTopic
    ensures exists y :: y in UploadGuidanceData(s, seeds, embed).rows && y.topic == x.topic && y.info == x.info
  {
    if SyncCommits(s, seeds, embed) {
      var j := SurvivorKeepsKeys(s.rows, Stage(seeds, embed), x);
      assert Synchronize(s.rows, Stage(seeds, embed))[j] in UploadGuidanceData(s, seeds, embed).rows;
    }
  }

  /** A row of another topic whose info no seed carries comes through unchanged. */
  lemma UnrelatedRowsUntouched(s: Store, seeds: seq<Seed>, embed: Embedder, x: Row)
    requires DistinctSeedInfos(seeds)
    requires x in s.rows && x.topic != GuidanceTopic
    requires forall k :: 0 <= k < |seeds| ==> seeds[k].info != x.info
    ensures x in UploadGuidanceData(s, seeds, embed).rows
  {
    if SyncCommits(s, seeds, embed) {
      var j := SurvivorKeepsKeys(s.rows, Stage(seeds, embed), x);
      assert Synchronize(s.rows, Stage(seeds, embed))[j] in UploadGuidanceData(s, seeds, embed).rows;
    }
  }

  /**
   * The update step has no topic filter: a row of another topic (a rules record)
   * whose info equals a seed's info is rewritten with the seed's text.
   */
  lemma UpdateReachesOtherTopics(s: Store, seeds: seq<Seed>, embed: Embedder, x: Row, k: nat)
    requires DistinctSeedInfos(seeds)
    requires SyncCommits(s, seeds, embed)
    requires x in s.rows && x.topic != GuidanceTopic
    requires k < |seeds| && seeds[k].info == x.info
    ensures exists y :: (y in UploadGuidanceData(s, seeds, embed).rows
      && y.topic == x.topic && y.info == x.info && y.text == seeds[k].text)
  {
    var staged := Stage(seeds, embed);
    var d := DeleteStale(s.rows, staged);
    DeleteStaleKeeps(s.rows, staged, x);
    var i :| 0 <= i < |d| && d[i] == x;
    var u := UpdateMatching(d, staged);
    var r := InsertNew(u, staged);
    assert r[..|u|][i] == u[i];
    assert r[i] in r;
  }

  /**
   * The insert step is keyed on text across all topics: a seed whose text a
   * row of another topic already holds is never inserted, so when no row carries the
   * seed's info beforehand, none carries it afterwards.
   */
  lemma SeedShadowedByExistingText(s: Store, seeds: seq<Seed>, embed: Embedder, x: Row, k: nat)
    requires DistinctSeedInfos(seeds)
    requires k < |seeds|
    requires x in s.rows && x.topic != GuidanceTopic && x.text == seeds[k].text
    requires forall l :: 0 <= l < |seeds| ==> seeds[l].info != x.info
    requires forall y :: y in s.rows ==> y.info != seeds[k].info
    ensures forall y :: y in UploadGuidanceData(s, seeds, embed).rows ==> y.info != seeds[k].info
  {
    if SyncCommits(s, seeds, embed) {
      var staged := Stage(seeds, embed);
      var d := DeleteStale(s.rows, staged);
      var u := UpdateMatching(d, staged);
      ShadowedSeedNotInserted(s.rows, staged, x, k);
      assert UploadGuidanceData(s, seeds, embed).rows == InsertNew(u, staged);
    }
  }

  /** Step-level core of `SeedShadowedByExistingText`. */
  lemma ShadowedSeedNotInserted(rows: seq<Row>, staged: seq<Row>, x: Row, k: nat)
    requires DistinctInfos(staged)
    requires k < |staged|
    requires x in rows && x.topic != GuidanceTopic && x.text == staged[k].text && !HasInfo(staged, x.info)
    requires forall y :: y in rows ==> y.info != staged[k].info
    ensures forall y :: y in InsertNew(UpdateMatching(DeleteStale(rows, staged), staged), staged) ==> y.info != staged[k].info
  {
    var d := DeleteStale(rows, staged);
    var u := UpdateMatching(d, staged);
    assert HasText(u, staged[k].text) by {
      DeleteStaleKeeps(rows, staged, x);
      var i :| 0 <= i < |d| && d[i] == x;
      assert u[i] == x;
    }
    assert forall j :: 0 <= j < |u| ==> u[j].info != staged[k].info by {
      DeleteStaleMembers(rows, staged);
    }
    PresentTextBlocksInsert(u, staged, k);
  }

  /** The insert step never adds a staged row whose text is present, so its info stays absent. */
  lemma PresentTextBlocksInsert(u: seq<Row>, staged: seq<Row>, k: nat)
    requires DistinctInfos(staged)
    requires k < |staged| && HasText(u, staged[k].text)
    requires forall j :: 0 <= j < |u| ==> u[j].info != staged[k].info
    ensures forall y :: y in InsertNew(u, staged) ==> y.info != staged[k].info
  {
    var r := InsertNew(u, staged);
    forall y | y in r
      ensures y.info != staged[k].info
    {
      var j :| 0 <= j < |r| && r[j] == y;
      if j < |u| {
        assert r[..|u|][j] == u[j];
      } else {
        var l :| 0 <= l < |staged| && staged[l] == r[j];
        assert l != k;
      }
    }
  }
}
