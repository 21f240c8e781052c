/**
 * The pure column handling of the statistics model
 * (statistics/app/services/model.py and data_preparation.py): the column
 * name normalisation applied before prediction, the churn binarisation
 * applied before training, and the required-column check on loaded data.
 */
module PlayerMetrics {
  import opened Wrappers
  import opened Text

  /** `col[0]` on an empty column name. */
  datatype ColumnError = IndexError(message: string)

  /** `col[0].upper() + col[1:] if col[0].islower() else col`. */
  function NormalizeColumn(col: string): (r: Result<string, ColumnError>)
    ensures r.Failure? <==> col == []
    ensures r.Success? ==> |r.value| == |col| && r.value[1..] == col[1..]
    ensures r.Success? ==> (r.value[0] != col[0] <==> IsLowerChar(col[0]))
    ensures r.Success? ==> !IsLowerChar(r.value[0])
    ensures r.Success? && IsLowerChar(col[0]) ==> r.value[0] as int == col[0] as int - 32
  {
    if col == [] then Failure(IndexError("string index out of range"))
    else if IsLowerChar(col[0]) then Success([UpperChar(col[0])] + col[1..])
    else Success(col)
  }

  /** The list comprehension over all column names: it fails on the first empty name. */
  function NormalizeColumns(cols: seq<string>): (r: Result<seq<string>, ColumnError>)
    ensures r.Success? <==> forall i :: 0 <= i < |cols| ==> cols[i] != []
    ensures r.Success? ==> (|r.value| == |cols|
      && forall i :: 0 <= i < |cols| ==> Success(r.value[i]) == NormalizeColumn(cols[i]))
  {
    if |cols| == 0 then Success([])
    else
      match (NormalizeColumn(cols[0]), NormalizeColumns(cols[1..]))
      case (Success(c), Success(cs)) => Success([c] + cs)
      case (Failure(e), _) => Failure(e)
      case (_, Failure(e)) =>
        assert forall i :: 1 <= i < |cols| ==> cols[i] == cols[1..][i - 1];
        Failure(e)
  }

  /** Normalising twice is normalising once. */
  lemma NormalizeColumnsIdempotent(cols: seq<string>)
    requires NormalizeColumns(cols).Success?
    ensures NormalizeColumns(NormalizeColumns(cols).value) == NormalizeColumns(cols)
  {
    var once := NormalizeColumns(cols).value;
    forall i | 0 <= i < |once|
      ensures NormalizeColumn(once[i]) == Success(once[i])
    {
      assert NormalizeColumn(cols[i]) == Success(once[i]);
    }
    assert NormalizeColumns(once).value == once;
  }

  /** Lower camel-case column names become the upper camel-case feature names the model selects. */
  lemma CamelCaseFeaturesAreRecognised()
    ensures NormalizeColumns(["totalGamesPlayed", "AvgMoveDuration"]) == Success(["TotalGamesPlayed", "AvgMoveDuration"])
  {
    var camel := "totalGamesPlayed";
    assert UpperChar('t') == 'T';
    assert [UpperChar(camel[0])] + camel[1..] == "TotalGamesPlayed";
    var cols := [camel, "AvgMoveDuration"];
    assert cols[0] != [] && cols[1] != [];
    var r := NormalizeColumns(cols);
    assert Success(r.value[0]) == NormalizeColumn(camel);
    assert Success(r.value[1]) == NormalizeColumn("AvgMoveDuration");
    assert r.value == ["TotalGamesPlayed", "AvgMoveDuration"];
  }

  /** `1 if x >= 0.5 else 0`, applied to the churn column. */
  function BinarizeChurn(xs: seq<real>): (r: seq<int>)
    ensures |r| == |xs|
    ensures forall i :: 0 <= i < |xs| ==> r[i] == 0 || r[i] == 1
    ensures forall i :: 0 <= i < |xs| ==> (r[i] == 1 <==> xs[i] >= 0.5)
  {
    seq(|xs|, i requires 0 <= i < |xs| => if xs[i] >= 0.5 then 1 else 0)
  }

  /** Binarised labels are fixed points of binarisation. */
  lemma BinarizeChurnIdempotent(xs: seq<real>)
    ensures BinarizeChurn(seq(|xs|, i requires 0 <= i < |xs| => BinarizeChurn(xs)[i] as real)) == BinarizeChurn(xs)
  {
  }

  /** A higher churn score never gets a lower label. */
  lemma BinarizeChurnMonotone(xs: seq<real>, i: int, j: int)
    requires 0 <= i < |xs| && 0 <= j < |xs| && xs[i] <= xs[j]
    ensures BinarizeChurn(xs)[i] <= BinarizeChurn(xs)[j]
  {
  }

  const RequiredColumns: seq<string> :=
    ["PlayerId", "TotalGamesPlayed", "TotalWins", "TotalLosses", "AvgMoveDuration", "Churn"]

  /** The message of the ValueError, with the list rendered as Python does. */
  const MissingColumnsMessage: string :=
    "CSV file must contain the following columns: ['PlayerId', 'TotalGamesPlayed', 'TotalWins', 'TotalLosses', 'AvgMoveDuration', 'Churn']"

  datatype LoadError = ValueError(message: string)

  /** `load_and_prepare_data` after reading the file: the data is returned as read, provided every required column is present. */
  function LoadAndPrepare<D>(columns: seq<string>, data: D): (r: Result<D, LoadError>)
    ensures r.Failure? <==> exists c :: c in RequiredColumns && c !in columns
    ensures r.Failure? ==> r.error == ValueError(MissingColumnsMessage)
    ensures r.Success? ==> r.value == data
  {
    if forall c :: c in RequiredColumns ==> c in columns then Success(data)
    else Failure(ValueError(MissingColumnsMessage))
  }

  /** Only the set of column names matters, not their order or repetition. */
  lemma LoadIgnoresColumnOrder<D>(columns: seq<string>, other: seq<string>, data: D)
    requires forall c :: c in columns <==> c in other
    ensures LoadAndPrepare(columns, data) == LoadAndPrepare(other, data)
  {
  }

  /** Extra columns never cause a rejection. */
  lemma LoadAcceptsExtraColumns<D>(columns: seq<string>, extra: seq<string>, data: D)
    requires LoadAndPrepare(columns, data).Success?
    ensures LoadAndPrepare(columns + extra, data) == Success(data)
  {
  }

  /** Dropping a required column always causes a rejection. */
  lemma LoadRejectsMissingColumn<D>(columns: seq<string>, k: int, data: D)
    requires 0 <= k < |RequiredColumns| && RequiredColumns[k] !in columns
    ensures LoadAndPrepare(columns, data).Failure?
  {
  }
}
