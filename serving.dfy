/**
 * The scoring service: the two globals `model` and `encoders` that
 * `load_model` fills at startup, and `predict_anomaly`, which turns one request
 * into a 503 (nothing loaded), a 500 (an exception while encoding or scoring)
 * or a verdict with the forest's raw decision score.
 */
module Serving {
  import opened Wrappers
  import opened Text
  import opened Records
  import opened Encoding
  import opened Training

  /** `IsolationForest.predict` answers -1 (outlier) or 1 (inlier). */
  type Label = x: int | x == -1 || x == 1 witness 1

  /** The fitted forest's `predict` and `decision_function` on one feature row. They are
      library code the model does not look into, so they are passed in as values. */
  datatype Oracle = Oracle(predict: (Detector, seq<int>) -> Label, decision: (Detector, seq<int>) -> real)

  /** The columns of the one-row frame the scorer builds. */
  const ScoringColumns: seq<string> := ["bytes", "protocol_encoded"]

  /** Why scoring raised: no `protocol` key in the encoder file, a protocol the encoder
      never saw, or a frame whose column names differ from those the forest was fit on. */
  datatype ScoreError = MissingEncoder(key: string) | Unencodable(cause: EncodeError) | FeatureNameMismatch

  datatype Response = NotLoaded | ServerError(error: ScoreError) | Prediction(body: PredictionResponse)

  function StatusCode(r: Response): int {
    match r
    case NotLoaded => 503
    case ServerError(_) => 500
    case Prediction(_) => 200
  }

  /** The values of the globals `model` and `encoders`. */
  datatype ServingState = ServingState(model: Option<Detector>, encoders: Option<EncoderBundle>)

  const Unloaded: ServingState := ServingState(None, None)

  /** The guard `if not model or not encoders`: an empty encoder dict is falsy too. */
  predicate Ready(s: ServingState) {
    s.model.Some? && s.encoders.Some? && |s.encoders.value| > 0
  }

  /** The one-row feature frame for a request: its byte count, then its protocol's code. */
  function ScoredFeatures(enc: EncoderBundle, req: LogBase): (r: Result<seq<int>, ScoreError>)
    ensures r.Success? <==> "protocol" in enc && req.protocol in enc["protocol"].classes
    ensures r.Success? ==>
      r.value == [req.bytes_transferred, Encode(enc["protocol"], req.protocol).value]
    ensures "protocol" !in enc ==> r == Failure(MissingEncoder("protocol"))
    ensures "protocol" in enc && req.protocol !in enc["protocol"].classes ==>
      r == Failure(Unencodable(UnseenLabel(req.protocol)))
  {
    if "protocol" !in enc then Failure(MissingEncoder("protocol"))
    else match Encode(enc["protocol"], req.protocol)
      case Failure(e) => Failure(Unencodable(e))
      case Success(code) => Success([req.bytes_transferred, code])
  }

  /** `predict_anomaly(request)` against the current globals. It only reads them. */
  function PredictAnomaly(s: ServingState, oracle: Oracle, req: LogBase): (r: Response)
    ensures r.NotLoaded? <==> !Ready(s)
    ensures r.Prediction? <==>
      Ready(s) && ScoredFeatures(s.encoders.value, req).Success? &&
      s.model.value.featureNames == ScoringColumns
    ensures r.Prediction? ==>
      var x := ScoredFeatures(s.encoders.value, req).value;
      r.body.is_anomaly == (oracle.predict(s.model.value, x) == -1) &&
      r.body.anomaly_score == oracle.decision(s.model.value, x)
    ensures r.ServerError? && ScoredFeatures(s.encoders.value, req).Failure? ==>
      r.error == ScoredFeatures(s.encoders.value, req).error
    ensures (Ready(s) && ScoredFeatures(s.encoders.value, req).Success? &&
             s.model.value.featureNames != ScoringColumns) ==>
      r == ServerError(FeatureNameMismatch)
  {
    if !Ready(s) then NotLoaded
    else
      match ScoredFeatures(s.encoders.value, req)
      case Failure(e) => ServerError(e)
      case Success(x) =>
        var model := s.model.value;
        if model.featureNames != ScoringColumns then ServerError(FeatureNameMismatch)
        else
          var prediction := oracle.predict(model, x);
          var score := oracle.decision(model, x);
          Prediction(PredictionResponse(prediction == -1, score))
  }

  /** `load_model()` on the state `s`: an absent model file changes nothing; a model file that
      fails to load raises before any assignment; an encoder file that fails to load leaves
      the model assigned and the encoders as they were. The exception never escapes. */
  function AfterLoad(s: ServingState, modelFile: FileState<Detector>, encodersFile: FileState<EncoderBundle>): (t: ServingState)
    ensures !modelFile.Stored? ==> t == s
    ensures modelFile.Stored? ==> t.model == Some(modelFile.contents)
    ensures modelFile.Stored? && encodersFile.Stored? ==> t.encoders == Some(encodersFile.contents)
    ensures !encodersFile.Stored? ==> t.encoders == s.encoders
  {
    match modelFile
    case Absent => s
    case Corrupt => s
    case Stored(m) =>
      match encodersFile
      case Stored(e) => ServingState(Some(m), Some(e))
      case _ => s.(model := Some(m))
  }

  /** The process's globals. */
  class Server {
    var model: Option<Detector>
    var encoders: Option<EncoderBundle>

    function State(): ServingState
      reads this
    {
      ServingState(model, encoders)
    }

    constructor ()
      ensures State() == Unloaded
    {
      model, encoders := None, None;
    }

    method LoadModel(dir: ArtifactDir)
      modifies this
      ensures State() == AfterLoad(old(State()), dir.modelFile, dir.encodersFile)
    {
      if !dir.modelFile.Absent? {
        // try:
        if dir.modelFile.Stored? {
          model := Some(dir.modelFile.contents);
          if dir.encodersFile.Stored? {
            encoders := Some(dir.encodersFile.contents);
          }
        }
        // except Exception: the failure is reported and swallowed.
      }
    }
  }

  // ---- Properties of loading and scoring ----

  /** Without both artifacts there is no verdict: the answer is 503. */
  lemma NoVerdictUnlessLoaded(s: ServingState, oracle: Oracle, req: LogBase)
    requires s.model.None? || s.encoders.None?
    ensures PredictAnomaly(s, oracle, req) == NotLoaded
    ensures StatusCode(PredictAnomaly(s, oracle, req)) == 503
  {
  }

  /** A verdict is answered with status 200 and carries the forest's own outputs: anomalous
      exactly when `predict` says -1, and the decision value unmodified. */
  lemma VerdictFromForest(s: ServingState, oracle: Oracle, req: LogBase)
    requires PredictAnomaly(s, oracle, req).Prediction?
    ensures StatusCode(PredictAnomaly(s, oracle, req)) == 200
    ensures var x := [req.bytes_transferred, Encode(s.encoders.value["protocol"], req.protocol).value];
      PredictAnomaly(s, oracle, req).body ==
        PredictionResponse(oracle.predict(s.model.value, x) == -1, oracle.decision(s.model.value, x))
  {
  }

  /** A missing model file leaves the globals as startup set them. */
  lemma LoadWithoutModelFile(encodersFile: FileState<EncoderBundle>, oracle: Oracle, req: LogBase)
    ensures AfterLoad(Unloaded, Absent, encodersFile) == Unloaded
    ensures AfterLoad(Unloaded, Corrupt, encodersFile) == Unloaded
    ensures PredictAnomaly(AfterLoad(Unloaded, Absent, encodersFile), oracle, req) == NotLoaded
  {
  }

  /** A model that loads with an encoder file that does not still serves only 503. */
  lemma PartialLoadRefuses(m: Detector, encodersFile: FileState<EncoderBundle>, oracle: Oracle, req: LogBase)
    requires !encodersFile.Stored?
    ensures AfterLoad(Unloaded, Stored(m), encodersFile) == ServingState(Some(m), None)
    ensures PredictAnomaly(AfterLoad(Unloaded, Stored(m), encodersFile), oracle, req) == NotLoaded
  {
  }

  /** The scorer builds its frame with the trainer's columns in the trainer's order. */
  lemma ColumnsAgree()
    ensures ScoringColumns == FeatureColumns
  {
  }

  // ---- Training, then loading, then scoring ----

  /** The state after a startup load of what a successful training run wrote. */
  function ServedFrom(rows: seq<LogEntry>): ServingState {
    AfterLoad(Unloaded, Stored(TrainedDetector(rows)), Stored(TrainedEncoders(rows)))
  }

  /** After training on `rows` and loading the result, a request is answered with a verdict
      exactly when its protocol occurs in the training data; otherwise with a 500 naming the
      unseen protocol. A verdict scores the vector of the request's bytes and the protocol's
      sorted rank among the training protocols. */
  lemma ServeTrainedModel(rows: seq<LogEntry>, oracle: Oracle, req: LogBase)
    ensures Ready(ServedFrom(rows))
    ensures PredictAnomaly(ServedFrom(rows), oracle, req).Prediction? <==> req.protocol in ProtocolColumn(rows)
    ensures req.protocol !in ProtocolColumn(rows) ==>
      PredictAnomaly(ServedFrom(rows), oracle, req) == ServerError(Unencodable(UnseenLabel(req.protocol)))
    ensures req.protocol in ProtocolColumn(rows) ==>
      var x := [req.bytes_transferred, |Below(ProtocolColumn(rows), req.protocol)|];
      PredictAnomaly(ServedFrom(rows), oracle, req) ==
        Prediction(PredictionResponse(oracle.predict(TrainedDetector(rows), x) == -1,
                                      oracle.decision(TrainedDetector(rows), x)))
  {
    if req.protocol in ProtocolColumn(rows) {
      EncodeIsRank(ProtocolColumn(rows), req.protocol);
    }
  }

  /** A request with the same byte count and protocol as training row `i` is scored on
      exactly that row of the training matrix: encoding and column order match training. */
  lemma ScoredAsTrained(rows: seq<LogEntry>, oracle: Oracle, req: LogBase, i: nat)
    requires i < |rows|
    requires req.bytes_transferred == rows[i].bytes && req.protocol == rows[i].protocol
    ensures ScoredFeatures(TrainedEncoders(rows), req) == Success(TrainedDetector(rows).samples[i])
    ensures PredictAnomaly(ServedFrom(rows), oracle, req) ==
      Prediction(PredictionResponse(
        oracle.predict(TrainedDetector(rows), TrainedDetector(rows).samples[i]) == -1,
        oracle.decision(TrainedDetector(rows), TrainedDetector(rows).samples[i])))
  {
    TrainedFeatureRow(rows, i);
    assert ProtocolColumn(rows)[i] == req.protocol;
  }
}
