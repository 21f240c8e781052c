/**
 * The prediction writer of the statistics service
 * (statistics/app/services/prediction_churn.py): one record per player in
 * the `player_predicitons` table, upserted row by row in input order.
 */
module Predictions {
  import opened Wrappers

  datatype Prediction = Prediction(churn: real, firstMoveWinProbability: real, playerClass: string)

  /** One record of the table, keyed by `player_player_id`. */
  datatype Record = Record(playerId: int, prediction: Prediction)

  predicate HasId(table: seq<Record>, id: int)
  {
    exists i :: 0 <= i < |table| && table[i].playerId == id
  }

  predicate UniqueIds(table: seq<Record>)
  {
    forall i, j :: 0 <= i < j < |table| ==> table[i].playerId != table[j].playerId
  }

  /** The prediction of the first record for `id`, if any. */
  function Lookup(table: seq<Record>, id: int): (r: Option<Prediction>)
    ensures r.None? <==> !HasId(table, id)
    ensures r.Some? ==> exists i :: 0 <= i < |table| && table[i] == Record(id, r.value)
  {
    if |table| == 0 then None
    else if table[0].playerId == id then Some(table[0].prediction)
    else
      assert forall i :: 1 <= i < |table| ==> table[i] == table[1..][i - 1];
      Lookup(table[1..], id)
  }

  /**
   * The body of the loop of `save_predictions_to_db`: when a record for `id`
   * exists every such record is updated in place, otherwise one is appended.
   */
  function Upsert(table: seq<Record>, id: int, p: Prediction): (r: seq<Record>)
    ensures HasId(table, id) ==> |r| == |table|
    ensures !HasId(table, id) ==> r == table + [Record(id, p)]
    ensures forall i :: 0 <= i < |table| && table[i].playerId != id ==> r[i] == table[i]
    ensures Lookup(r, id) == Some(p)
    ensures forall k :: k != id ==> Lookup(r, k) == Lookup(table, k)
    ensures forall k :: HasId(r, k) <==> HasId(table, k) || k == id
    ensures UniqueIds(table) ==> UniqueIds(r)
  {
    if HasId(table, id) then
      var r := seq(|table|, i requires 0 <= i < |table| => if table[i].playerId == id then Record(id, p) else table[i]);
      UpdateLookup(table, id, p, r);
      r
    else
      AppendLookup(table, Record(id, p));
      table + [Record(id, p)]
  }

  lemma {:induction false} UpdateLookup(table: seq<Record>, id: int, p: Prediction, r: seq<Record>)
    requires |r| == |table|
    requires forall i :: 0 <= i < |table| ==> r[i] == if table[i].playerId == id then Record(id, p) else table[i]
    requires HasId(table, id)
    ensures Lookup(r, id) == Some(p)
    ensures forall k :: k != id ==> Lookup(r, k) == Lookup(table, k)
  {
    if table[0].playerId != id {
      assert forall i :: 1 <= i < |table| ==> table[i] == table[1..][i - 1];
      UpdateLookup(table[1..], id, p, r[1..]);
    }
    forall k | k != id
      ensures Lookup(r, k) == Lookup(table, k)
    {
      UpdateLookupOther(table, id, p, r, k);
    }
  }

  lemma {:induction false} UpdateLookupOther(table: seq<Record>, id: int, p: Prediction, r: seq<Record>, k: int)
    requires |r| == |table|
    requires forall i :: 0 <= i < |table| ==> r[i] == if table[i].playerId == id then Record(id, p) else table[i]
    requires k != id
    ensures Lookup(r, k) == Lookup(table, k)
  {
    if |table| > 0 && table[0].playerId != k {
      UpdateLookupOther(table[1..], id, p, r[1..], k);
    }
  }

  lemma {:induction false} AppendLookup(table: seq<Record>, x: Record)
    ensures HasId(table, x.playerId) ==> Lookup(table + [x], x.playerId) == Lookup(table, x.playerId)
    ensures !HasId(table, x.playerId) ==> Lookup(table + [x], x.playerId) == Some(x.prediction)
    ensures forall k :: k != x.playerId ==> Lookup(table + [x], k) == Lookup(table, k)
  {
    if |table| > 0 {
      assert (table + [x])[1..] == table[1..] + [x];
      AppendLookup(table[1..], x);
    }
  }

  /** `save_predictions_to_db`: the rows applied in order. */
  function SavePredictions(table: seq<Record>, rows: seq<Record>): (r: seq<Record>)
    ensures UniqueIds(table) ==> UniqueIds(r)
    ensures |table| <= |r| <= |table| + |rows|
    decreases |rows|
  {
    if |rows| == 0 then table
    else SavePredictions(Upsert(table, rows[0].playerId, rows[0].prediction), rows[1..])
  }

  /** A player missing from the input keeps its record, if it had one. */
  lemma {:induction false} AbsentPlayersUntouched(table: seq<Record>, rows: seq<Record>, id: int)
    requires forall j :: 0 <= j < |rows| ==> rows[j].playerId != id
    ensures Lookup(SavePredictions(table, rows), id) == Lookup(table, id)
    decreases |rows|
  {
    if |rows| > 0 {
      AbsentPlayersUntouched(Upsert(table, rows[0].playerId, rows[0].prediction), rows[1..], id);
    }
  }

  /** For a player listed several times, the last row's prediction is the one saved. */
  lemma {:induction false} LastRowWins(table: seq<Record>, rows: seq<Record>, k: int)
    requires 0 <= k < |rows|
    requires forall j :: k < j < |rows| ==> rows[j].playerId != rows[k].playerId
    ensures Lookup(SavePredictions(table, rows), rows[k].playerId) == Some(rows[k].prediction)
    decreases |rows|
  {
    var next := Upsert(table, rows[0].playerId, rows[0].prediction);
    if k == 0 {
      AbsentPlayersUntouched(next, rows[1..], rows[0].playerId);
    } else {
      LastRowWins(next, rows[1..], k - 1);
    }
  }

  /** After saving, the table holds a record exactly for the players it had and the players saved. */
  lemma {:induction false} SavedIds(table: seq<Record>, rows: seq<Record>, id: int)
    ensures HasId(SavePredictions(table, rows), id) <==>
      HasId(table, id) || exists j :: 0 <= j < |rows| && rows[j].playerId == id
    decreases |rows|
  {
    if |rows| > 0 {
      SavedIds(Upsert(table, rows[0].playerId, rows[0].prediction), rows[1..], id);
      assert forall j :: 1 <= j < |rows| ==> rows[j] == rows[1..][j - 1];
    }
  }

  const ChurnModelPath: string := "./app/trained_models/churn/churn_model.pkl"

  const Features: seq<string> := [
    "total_games_played", "total_weekdays_played", "total_weekends_played", "avg_move_duration",
    "total_morning_plays", "total_evening_plays", "total_night_plays"]

  const PlaceholderWinProbability: real := 0.5

  const PlaceholderClass: string := "BEGINNER"

  /** The preprocessed player frame: its column names and its `player_player_id` column. */
  datatype Frame = Frame(columns: seq<string>, playerIds: seq<int>)

  datatype StatsError = FileNotFound(message: string) | KeyError(column: string) | ValueError(message: string)

  /** The records saved for a frame with churn column `churn`. */
  function PredictionRows(ids: seq<int>, churn: seq<real>): (rows: seq<Record>)
    requires |churn| == |ids|
    ensures |rows| == |ids|
    ensures forall i :: 0 <= i < |ids| ==>
      rows[i] == Record(ids[i], Prediction(churn[i], PlaceholderWinProbability, PlaceholderClass))
  {
    seq(|ids|, i requires 0 <= i < |ids| => Record(ids[i], Prediction(churn[i], PlaceholderWinProbability, PlaceholderClass)))
  }

  /**
   * `predict_and_save_to_db` after fetching and preprocessing: the model file
   * is checked first; missing features end the run with nothing saved; the
   * model's output must have one value per row; then every row is saved.
   */
  function PredictAndSave(modelExists: bool, frame: Frame, predict: Frame -> seq<real>, table: seq<Record>)
    : (r: Result<seq<Record>, StatsError>)
    ensures !modelExists ==> r == Failure(FileNotFound("Trained model not found at " + ChurnModelPath))
    ensures modelExists && (exists f :: f in Features && f !in frame.columns) ==> r == Success(table)
    ensures r.Failure? && modelExists ==> r.error.KeyError? || r.error.ValueError?
    ensures r.Failure? && r.error.KeyError? ==> r.error.column == "player_player_id" && "player_player_id" !in frame.columns
    ensures r.Success? && (forall f :: f in Features ==> f in frame.columns) ==>
      |predict(frame)| == |frame.playerIds| && r.value == SavePredictions(table, PredictionRows(frame.playerIds, predict(frame)))
    ensures (modelExists && (forall f :: f in Features ==> f in frame.columns)
      && |predict(frame)| == |frame.playerIds| && "player_player_id" in frame.columns) ==> r.Success?
    ensures r.Failure? && r.error.ValueError? ==> |predict(frame)| != |frame.playerIds|
  {
    if !modelExists then Failure(FileNotFound("Trained model not found at " + ChurnModelPath))
    else if exists f :: f in Features && f !in frame.columns then Success(table)
    else
      var churn := predict(frame);
      if |churn| != |frame.playerIds| then Failure(ValueError("Length of values does not match length of index"))
      else if "player_player_id" !in frame.columns then Failure(KeyError("player_player_id"))
      else Success(SavePredictions(table, PredictionRows(frame.playerIds, churn)))
  }

  /** The position of the last occurrence of `x` in `xs`. */
  function LastIndex(xs: seq<int>, x: int): (k: nat)
    requires x in xs
    ensures k < |xs| && xs[k] == x
    ensures forall j :: k < j < |xs| ==> xs[j] != x
  {
    if xs[|xs| - 1] == x then |xs| - 1 else LastIndex(xs[..|xs| - 1], x)
  }

  /** After a successful run with all features present, every player of the frame has a record with the placeholder values. */
  lemma PredictedPlayersGetPlaceholders(modelExists: bool, frame: Frame, predict: Frame -> seq<real>, table: seq<Record>, id: int)
    requires PredictAndSave(modelExists, frame, predict, table).Success?
    requires forall f :: f in Features ==> f in frame.columns
    requires id in frame.playerIds
    ensures var p := Lookup(PredictAndSave(modelExists, frame, predict, table).value, id);
      p.Some? && p.value.firstMoveWinProbability == PlaceholderWinProbability && p.value.playerClass == PlaceholderClass
  {
    var rows := PredictionRows(frame.playerIds, predict(frame));
    var k := LastIndex(frame.playerIds, id);
    LastRowWins(table, rows, k);
  }

  /** A run never touches the record of a player who is not in the frame. */
  lemma PredictAndSaveLeavesOthers(modelExists: bool, frame: Frame, predict: Frame -> seq<real>, table: seq<Record>, id: int)
    requires id !in frame.playerIds
    ensures var r := PredictAndSave(modelExists, frame, predict, table);
      r.Success? ==> Lookup(r.value, id) == Lookup(table, id)
  {
    var r := PredictAndSave(modelExists, frame, predict, table);
    if r.Success? && forall f :: f in Features ==> f in frame.columns {
      var rows := PredictionRows(frame.playerIds, predict(frame));
      assert forall j :: 0 <= j < |rows| ==> rows[j].playerId == frame.playerIds[j];
      AbsentPlayersUntouched(table, rows, id);
    }
  }
}
