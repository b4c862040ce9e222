/**
 * The offline trainer: read the generated traffic CSV into a frame, add the
 * label-encoded protocol and event-type columns, select the two feature
 * columns, fit an IsolationForest with fixed hyperparameters and write the
 * model file and the encoder file.
 *
 * The fitted forest is represented by what determines it (hyperparameters,
 * feature names, training matrix); its predictions come from `Serving.Oracle`.
 */
module Training {
  import opened Wrappers
  import opened Text
  import opened Records
  import opened Encoding

  /** `IsolationForest(n_estimators, contamination, random_state)`. */
  datatype Hyperparameters = Hyperparameters(nEstimators: nat, contamination: real, randomState: int)

  const TrainingHyperparameters: Hyperparameters := Hyperparameters(100, 0.1, 42)

  /** The columns the forest is fit on, in this order. */
  const FeatureColumns: seq<string> := ["bytes", "protocol_encoded"]

  /** A fitted forest: its hyperparameters, the column names and the matrix it was fit on. */
  datatype Detector = Detector(params: Hyperparameters, featureNames: seq<string>, samples: seq<seq<int>>)

  /** The encoder file's contents: encoders by the name of the column they encode. */
  type EncoderBundle = map<string, Registry>

  /** What a file of the artifact directory holds: nothing, bytes that do not load, or a value. */
  datatype FileState<T> = Absent | Corrupt | Stored(contents: T)

  /** The data file as the trainer finds it: missing, unreadable as CSV, or its rows. */
  datatype DataFile = Missing | Unreadable | Csv(rows: seq<LogEntry>)

  /** How a training run ends: the early return, an exception from reading or from
      fitting, or both files written. */
  datatype TrainOutcome = NoDataFile | ReadFailed | FitFailed | Saved

  datatype Column = IntColumn(ints: seq<int>) | StrColumn(strs: seq<string>)

  function ColumnLength(c: Column): nat {
    match c
    case IntColumn(s) => |s|
    case StrColumn(s) => |s|
  }

  function StrField(rows: seq<LogEntry>, f: LogEntry -> string): (col: seq<string>)
    ensures |col| == |rows| && forall i :: 0 <= i < |rows| ==> col[i] == f(rows[i])
  {
    seq(|rows|, i requires 0 <= i < |rows| => f(rows[i]))
  }

  function ProtocolColumn(rows: seq<LogEntry>): seq<string> {
    StrField(rows, (e: LogEntry) => e.protocol)
  }

  function EventColumn(rows: seq<LogEntry>): seq<string> {
    StrField(rows, (e: LogEntry) => e.event_type)
  }

  function BytesColumn(rows: seq<LogEntry>): (col: seq<int>)
    ensures |col| == |rows| && forall i :: 0 <= i < |rows| ==> col[i] == rows[i].bytes
  {
    seq(|rows|, i requires 0 <= i < |rows| => rows[i].bytes)
  }

  /** The frame `pd.read_csv` builds from the generator's file: one column per header name. */
  function CsvColumns(rows: seq<LogEntry>): (cols: map<string, Column>)
    ensures cols.Keys == set name | name in Header
    ensures forall name :: name in cols ==> ColumnLength(cols[name]) == |rows|
  {
    map[
      "timestamp" := StrColumn(StrField(rows, (e: LogEntry) => e.timestamp)),
      "source_ip" := StrColumn(StrField(rows, (e: LogEntry) => e.source_ip)),
      "destination_ip" := StrColumn(StrField(rows, (e: LogEntry) => e.destination_ip)),
      "bytes" := IntColumn(BytesColumn(rows)),
      "protocol" := StrColumn(ProtocolColumn(rows)),
      "event_type" := StrColumn(EventColumn(rows)),
      "details" := StrColumn(StrField(rows, (e: LogEntry) => e.details))]
  }

  /** A pandas DataFrame: named columns of one common length, extended in place. */
  class Frame {
    var rowCount: nat
    var columns: map<string, Column>

    ghost predicate Valid()
      reads this
    {
      ColumnsOfLength(columns, rowCount)
    }

    /** `pd.read_csv` on the generator's file. */
    constructor ReadCsv(rows: seq<LogEntry>)
      ensures Valid() && rowCount == |rows| && columns == CsvColumns(rows)
    {
      rowCount := |rows|;
      columns := CsvColumns(rows);
    }

    /** `df[name] = col`: adds the column, or replaces the one of that name. */
    method SetColumn(name: string, col: Column)
      requires Valid() && ColumnLength(col) == rowCount
      modifies this
      ensures Valid() && rowCount == old(rowCount)
      ensures columns == old(columns)[name := col]
    {
      columns := columns[name := col];
    }

  }

  predicate ColumnsOfLength(columns: map<string, Column>, n: nat) {
    forall name :: name in columns ==> ColumnLength(columns[name]) == n
  }

  /** `df[names]` as the numeric matrix the estimator is fit on: row `i` holds, in the
      order named, the `i`-th value of each column; `None` if a name is not a numeric column. */
  function Select(columns: map<string, Column>, n: nat, names: seq<string>): (r: Option<seq<seq<int>>>)
    requires ColumnsOfLength(columns, n)
    ensures r.Some? <==> forall j :: 0 <= j < |names| ==> names[j] in columns && columns[names[j]].IntColumn?
    ensures r.Some? ==> |r.value| == n
    ensures r.Some? ==> forall i :: 0 <= i < n ==> |r.value[i]| == |names|
    ensures r.Some? ==> forall i, j :: 0 <= i < n && 0 <= j < |names| ==>
              r.value[i][j] == columns[names[j]].ints[i]
  {
    if forall j :: 0 <= j < |names| ==> names[j] in columns && columns[names[j]].IntColumn? then
      assert forall j :: 0 <= j < |names| ==> |columns[names[j]].ints| == n;
      Some(seq(n, i requires 0 <= i < n =>
        seq(|names|, j requires 0 <= j < |names| => columns[names[j]].ints[i])))
    else
      None
  }

  /** The protocol codes `fit_transform` gives the training rows. */
  function ProtocolCodes(rows: seq<LogEntry>): (codes: seq<nat>)
    ensures |codes| == |rows|
    ensures forall i :: 0 <= i < |rows| ==>
      Encode(Fit(ProtocolColumn(rows)), rows[i].protocol) == Success(codes[i])
  {
    FitTransformTotal(ProtocolColumn(rows));
    Transform(Fit(ProtocolColumn(rows)), ProtocolColumn(rows)).value
  }

  /** The event-type codes: computed by the trainer, never used as a feature. */
  function EventCodes(rows: seq<LogEntry>): (codes: seq<nat>)
    ensures |codes| == |rows|
    ensures forall i :: 0 <= i < |rows| ==>
      Encode(Fit(EventColumn(rows)), rows[i].event_type) == Success(codes[i])
  {
    FitTransformTotal(EventColumn(rows));
    Transform(Fit(EventColumn(rows)), EventColumn(rows)).value
  }

  /** The two-feature matrix whose row `i` is `[a[i], b[i]]`. */
  function Pairs(a: seq<int>, b: seq<int>): (x: seq<seq<int>>)
    requires |a| == |b|
    ensures |x| == |a|
    ensures forall i :: 0 <= i < |a| ==> x[i] == [a[i], b[i]]
  {
    seq(|a|, i requires 0 <= i < |a| => [a[i], b[i]])
  }

  /** The training matrix: per row, its byte count, then its protocol code. */
  function FeatureMatrix(rows: seq<LogEntry>): (x: seq<seq<int>>)
    ensures |x| == |rows|
    ensures forall i :: 0 <= i < |rows| ==> x[i] == [rows[i].bytes, ProtocolCodes(rows)[i] as int]
  {
    Pairs(BytesColumn(rows), ProtocolCodes(rows))
  }

  function TrainedDetector(rows: seq<LogEntry>): Detector {
    Detector(TrainingHyperparameters, FeatureColumns, FeatureMatrix(rows))
  }

  /** Only the protocol encoder is saved. */
  function TrainedEncoders(rows: seq<LogEntry>): EncoderBundle {
    map["protocol" := Fit(ProtocolColumn(rows))]
  }

  function TrainingOutcome(data: DataFile): TrainOutcome {
    match data
    case Missing => NoDataFile
    case Unreadable => ReadFailed
    case Csv(rows) => if |rows| == 0 then FitFailed else Saved
  }

  /** The trainer's encoding step: fits one encoder on `protocol` and one on `event_type`
      and adds the two code columns to the frame read from the CSV; returns the protocol
      encoder, the only one saved. */
  method EncodeCategoricals(df: Frame, rows: seq<LogEntry>) returns (leProtocol: Registry)
    requires df.Valid() && df.rowCount == |rows| && df.columns == CsvColumns(rows)
    modifies df
    ensures df.Valid() && df.rowCount == |rows|
    ensures df.columns == EncodedColumns(rows)
    ensures leProtocol == Fit(ProtocolColumn(rows))
  {
    var protocols := df.columns["protocol"].strs;
    assert protocols == ProtocolColumn(rows);
    leProtocol := Fit(protocols);
    FitTransformTotal(protocols);
    var protocolEncoded := Transform(leProtocol, protocols).value;
    df.SetColumn("protocol_encoded", IntColumn(protocolEncoded));

    var events := df.columns["event_type"].strs;
    assert events == EventColumn(rows);
    var leEvent := Fit(events);
    FitTransformTotal(events);
    df.SetColumn("event_encoded", IntColumn(Transform(leEvent, events).value));
  }

  /** The directory the trainer writes and the server reads. */
  class ArtifactDir {
    var modelFile: FileState<Detector>
    var encodersFile: FileState<EncoderBundle>

    constructor (model: FileState<Detector>, encoders: FileState<EncoderBundle>)
      ensures modelFile == model && encodersFile == encoders
    {
      modelFile, encodersFile := model, encoders;
    }

    /** `train_model()`: no file is written unless the fit succeeds, and then both are. */
    method TrainModel(data: DataFile) returns (outcome: TrainOutcome)
      modifies this
      ensures outcome == TrainingOutcome(data)
      ensures outcome != Saved ==> modelFile == old(modelFile) && encodersFile == old(encodersFile)
      ensures outcome == Saved ==>
        modelFile == Stored(TrainedDetector(data.rows)) &&
        encodersFile == Stored(TrainedEncoders(data.rows))
    {
      if data.Missing? {
        return NoDataFile;
      }
      if data.Unreadable? {
        return ReadFailed;
      }
      var rows := data.rows;
      var df := new Frame.ReadCsv(rows);
      var leProtocol := EncodeCategoricals(df, rows);

      SelectFeatures(rows, df.columns);
      var x := Select(df.columns, df.rowCount, FeatureColumns);
      if df.rowCount == 0 {
        // IsolationForest.fit raises on a matrix with no rows.
        return FitFailed;
      }
      var clf := Detector(TrainingHyperparameters, FeatureColumns, x.value);
      modelFile := Stored(clf);
      encodersFile := Stored(map["protocol" := leProtocol]);
      outcome := Saved;
    }
  }

  // ---- What a training run produces ----

  /** The frame's columns once the trainer has added both encoded columns. */
  function EncodedColumns(rows: seq<LogEntry>): (cols: map<string, Column>)
    ensures ColumnsOfLength(cols, |rows|)
    ensures "bytes" in cols && cols["bytes"] == IntColumn(BytesColumn(rows))
    ensures "protocol_encoded" in cols && cols["protocol_encoded"] == IntColumn(ProtocolCodes(rows))
  {
    var csv := CsvColumns(rows);
    assert "bytes" in csv && csv["bytes"] == IntColumn(BytesColumn(rows));
    var withProtocol := csv["protocol_encoded" := IntColumn(ProtocolCodes(rows))];
    assert ColumnsOfLength(withProtocol, |rows|);
    withProtocol["event_encoded" := IntColumn(EventCodes(rows))]
  }

  /** Selecting `bytes` and `protocol_encoded` from a frame whose two columns of those names
      hold `a` and `b` gives the matrix of rows `[a[i], b[i]]`. */
  lemma SelectPair(cols: map<string, Column>, n: nat, a: seq<int>, b: seq<int>)
    requires ColumnsOfLength(cols, n) && |a| == n && |b| == n
    requires "bytes" in cols && cols["bytes"] == IntColumn(a)
    requires "protocol_encoded" in cols && cols["protocol_encoded"] == IntColumn(b)
    ensures Select(cols, n, FeatureColumns) == Some(Pairs(a, b))
  {
    var names := FeatureColumns;
    assert names[0] == "bytes" && names[1] == "protocol_encoded";
    var x := Select(cols, n, names);
    assert x.Some?;
    var m := Pairs(a, b);
    forall i | 0 <= i < n ensures x.value[i] == m[i] {
      assert |x.value[i]| == 2;
      assert x.value[i][0] == cols[names[0]].ints[i] == a[i];
      assert x.value[i][1] == cols[names[1]].ints[i] == b[i];
    }
    assert x.value == m;
  }

  /** Selecting `bytes` and `protocol_encoded` from any frame holding those two columns
      of the training rows gives the training matrix. */
  lemma SelectFeatures(rows: seq<LogEntry>, cols: map<string, Column>)
    requires ColumnsOfLength(cols, |rows|)
    requires "bytes" in cols && cols["bytes"] == IntColumn(BytesColumn(rows))
    requires "protocol_encoded" in cols && cols["protocol_encoded"] == IntColumn(ProtocolCodes(rows))
    ensures Select(cols, |rows|, FeatureColumns) == Some(FeatureMatrix(rows))
  {
    SelectPair(cols, |rows|, BytesColumn(rows), ProtocolCodes(rows));
  }

  /** Row `i` of the training matrix is its byte count followed by its protocol's code, a
      code in `[0, number of distinct protocols)` equal to the protocol's sorted rank. */
  lemma TrainedFeatureRow(rows: seq<LogEntry>, i: nat)
    requires i < |rows|
    ensures TrainedDetector(rows).samples[i] == [rows[i].bytes, ProtocolCodes(rows)[i]]
    ensures ProtocolCodes(rows)[i] < |set p | p in ProtocolColumn(rows)|
    ensures ProtocolCodes(rows)[i] == |Below(ProtocolColumn(rows), rows[i].protocol)|
  {
    var protocols := ProtocolColumn(rows);
    assert protocols[i] == rows[i].protocol;
    FitTransformTotal(protocols);
    EncodeIsRank(protocols, rows[i].protocol);
  }

  /** Two training rows share a protocol code exactly when they share the protocol,
      and the code order follows the string order of the protocols. */
  lemma TrainedCodesOrdered(rows: seq<LogEntry>, i: nat, j: nat)
    requires i < |rows| && j < |rows|
    ensures ProtocolCodes(rows)[i] == ProtocolCodes(rows)[j] <==> rows[i].protocol == rows[j].protocol
    ensures StrLess(rows[i].protocol, rows[j].protocol) ==> ProtocolCodes(rows)[i] < ProtocolCodes(rows)[j]
  {
    var reg := Fit(ProtocolColumn(rows));
    if StrLess(rows[i].protocol, rows[j].protocol) {
      EncodeMonotone(reg, rows[i].protocol, rows[j].protocol);
    }
  }

  /** The fixed shape of every saved bundle: the hyperparameters 100 / 0.1 / 42, the feature
      columns `bytes` then `protocol_encoded` (the event code is not among them), one
      sample per row, and an encoder file whose only key is `protocol`. */
  lemma TrainedArtifactShape(rows: seq<LogEntry>)
    ensures TrainedDetector(rows).params == Hyperparameters(100, 0.1, 42)
    ensures TrainedDetector(rows).featureNames == ["bytes", "protocol_encoded"]
    ensures "event_encoded" !in TrainedDetector(rows).featureNames
    ensures |TrainedDetector(rows).samples| == |rows|
    ensures TrainedEncoders(rows).Keys == {"protocol"}
    ensures TrainedEncoders(rows)["protocol"].Valid()
  {
  }

  /** Training on two corpora with the same protocols, in any order and any number, saves
      the same encoder, so the codes are reproduced. */
  lemma TrainingDeterministic(rows1: seq<LogEntry>, rows2: seq<LogEntry>)
    requires forall p :: p in ProtocolColumn(rows1) <==> p in ProtocolColumn(rows2)
    ensures TrainedEncoders(rows1) == TrainedEncoders(rows2)
  {
    FitDeterministic(ProtocolColumn(rows1), ProtocolColumn(rows2));
  }
}
