# Anomaly scoring pipeline of an AI security monitor, in Dafny

This project models the core of a network-security monitor. The monitor has four parts:

- a trainer that label-encodes the protocol of historical traffic records, fits an
  IsolationForest on the byte count and the encoded protocol, and writes the model file and
  an encoder file;
- a FastAPI service that loads both files into two globals at startup and answers
  `/predict/` with a verdict and the forest's decision score, or with 503 or 500;
- a generator that appends synthetic traffic records to a CSV file;
- a React dashboard that counts the fetched records, draws a chart of the recent ones and
  lists recent alerts with a Safe/Critical badge.

The forest is library code. In the model a fitted forest is a value that records its
hyperparameters, feature names and training matrix (`Training.Detector`). Its `predict`
(answering -1 or 1) and `decision_function` (answering a real) are two function values
(`Serving.Oracle`) that every scoring lemma takes as a parameter. File existence and load
success are inputs: a file is `Absent`, `Corrupt` or `Stored(value)`. Random draws and the
clock are parameters of the generator.

Modules, one per component: `Wrappers` (Option, Result), `Text` (Python's string order,
`str(n)` for naturals, `str.split`), `Records` (the request, response and CSV record
shapes), `Encoding` (the label encoder), `Training`, `Serving`, `LogGenerator`, `Dashboard`.

Three behaviours of the code are worth stating, since a reader might expect otherwise:

- Loading is not atomic. The model file and the encoder file are loaded one after the other,
  so a failing encoder load leaves the model assigned.
- An unseen protocol is not a distinct error kind. It takes the same 500 path as every
  other exception.
- The trainer writes the two files itself; it returns nothing to its caller.

## Model

| member | source | states |
|---|---|---|
| `Encoding.Fit` | ai-model/train_model.py:23-24 | the fitted classes are strictly sorted in Python string order and hold exactly the values seen |
| `Encoding.Encode` | backend/main.py:86 | a value gets a code exactly when it is among the classes; the code indexes that value; an unseen value gives `UnseenLabel(value)` |
| `Encoding.Transform` | ai-model/train_model.py:24 | encoding a column succeeds exactly when every value is known, giving one code per value, each equal to that value's own code |
| `Encoding.FitTransformTotal` | ai-model/train_model.py:23-24 | `fit_transform` never fails on its own column; there is one class per distinct value; every code is below the number of distinct values |
| `Encoding.EncodeInjective` | ai-model/train_model.py:23-24 | two known values get the same code exactly when they are equal |
| `Encoding.EncodeMonotone` | ai-model/train_model.py:23-24 | if a sorts before b, then code(a) < code(b) |
| `Encoding.EncodeIsRank` | ai-model/train_model.py:23-24 | the code of a seen value equals the number of distinct seen values sorting below it |
| `Encoding.FitDeterministic` | ai-model/train_model.py:23-24 | columns with the same distinct values, in any order and with any repetition, give the same encoder |
| `Text.DecimalRoundTrip` | backend/log_generator.py:22 | the decimal rendering of a natural reads back as that natural |
| `Training.CsvColumns` | ai-model/train_model.py:19 | the frame read from the CSV has exactly the header's column names, all of one length |
| `Training.Frame.ReadCsv` | ai-model/train_model.py:19 | the new frame holds one column per header name and one row per record |
| `Training.Frame.SetColumn` | ai-model/train_model.py:24-27 | adding a column replaces only that name; the row count and the other columns are kept |
| `Training.EncodeCategoricals` | ai-model/train_model.py:23-27 | the frame gains `protocol_encoded` and `event_encoded` and keeps its row count; the returned encoder is the one fit on the protocol column |
| `Training.ProtocolCodes` | ai-model/train_model.py:23-24 | one code per record: the code the protocol encoder gives that record's protocol |
| `Training.EventCodes` | ai-model/train_model.py:26-27 | one code per record: the code the event encoder gives that record's event type |
| `Training.EncodedColumns` | ai-model/train_model.py:24-27 | after both encoded columns are added, `bytes` and `protocol_encoded` hold the byte counts and the protocol codes |
| `Training.Select` | ai-model/train_model.py:34-35 | the selection succeeds exactly when every named column is numeric; row i holds each named column's value i, in the order named |
| `Training.SelectPair` | ai-model/train_model.py:34-35 | selecting `bytes` and `protocol_encoded` from columns holding a and b gives the rows `[a[i], b[i]]` |
| `Training.SelectFeatures` | ai-model/train_model.py:34-35 | selecting the feature columns gives, per record, its byte count then its protocol code |
| `Training.ArtifactDir.TrainModel` | ai-model/train_model.py:13-46 | a missing data file, an unreadable one or an empty one writes nothing; otherwise the model file holds the forest fit with 100/0.1/42 on the feature matrix, and the encoder file holds `{protocol: encoder}` |
| `Training.TrainedFeatureRow` | ai-model/train_model.py:23-35 | training row i is `[bytes, code]`; the code is below the number of distinct protocols and equals the protocol's sorted rank |
| `Training.TrainedCodesOrdered` | ai-model/train_model.py:23-24 | two rows share a code exactly when they share the protocol; codes follow the string order of the protocols |
| `Training.TrainedArtifactShape` | ai-model/train_model.py:34-45 | hyperparameters are 100, 0.1, 42; features are `bytes` then `protocol_encoded`, without `event_encoded`; one sample per row; the encoder file's only key is `protocol` |
| `Training.TrainingDeterministic` | ai-model/train_model.py:23-24 | two corpora with the same protocols give the same saved encoder |
| `Serving.ScoredFeatures` | backend/main.py:86-91 | the scored vector is `[bytes_transferred, code]`; a missing `protocol` key or an unseen protocol is the failure |
| `Serving.PredictAnomaly` | backend/main.py:79-101 | 503 exactly when a global is unset or the encoder dict is empty; a verdict exactly when encoding succeeds and the feature names match; `is_anomaly` is `predict == -1`; the score is the raw decision value; an encoding failure is a 500 carrying its cause, and a feature-name mismatch is a 500 carrying `FeatureNameMismatch` |
| `Serving.AfterLoad` | backend/main.py:37-47 | a missing or corrupt model file keeps the state; a stored one sets the model; a stored encoder file then sets the encoders; otherwise the encoders are kept |
| `Serving.Server.constructor` | backend/main.py:31-32 | both globals start unset |
| `Serving.Server.LoadModel` | backend/main.py:37-47 | the globals become `AfterLoad` of their old values and the two files: a missing or corrupt model file changes nothing; a bad encoder file sets only the model |
| `Serving.NoVerdictUnlessLoaded` | backend/main.py:81-82 | with either global unset, every request gets 503 |
| `Serving.VerdictFromForest` | backend/main.py:93-98 | a verdict is status 200, is anomalous exactly when the forest predicts -1, and carries the decision value unchanged |
| `Serving.LoadWithoutModelFile` | backend/main.py:39-47 | from startup, a missing or corrupt model file leaves both globals unset, so requests get 503 |
| `Serving.PartialLoadRefuses` | backend/main.py:41-45 | if the model loads and the encoders do not, the model is set, the encoders stay unset, and every request gets 503 |
| `Serving.ColumnsAgree` | backend/main.py:91 | the scorer's column list equals the trainer's |
| `Serving.ServeTrainedModel` | backend/main.py:86-98 | after training and loading, a request gets a verdict exactly when its protocol occurred in training, scored on `[bytes, rank]`; otherwise a 500 naming the unseen protocol |
| `Serving.ScoredAsTrained` | backend/main.py:91 | a request equal in bytes and protocol to training row i is scored on exactly that training sample |
| `LogGenerator.GenerateIp` | backend/log_generator.py:21-22 | the address splits on dots into the decimal renderings of the four draws |
| `LogGenerator.GeneratedIpOctets` | backend/log_generator.py:21-22 | an address has four octets that read back to the draws: the first in [10,192], the next two in [0,255], the last in [1,255] |
| `LogGenerator.Details` | backend/log_generator.py:35-43 | for Failed Login and Port Scan the details end with the source address; for every other type they are one of the three fixed texts |
| `LogGenerator.DetailsIdentifyEvent` | backend/log_generator.py:35-43 | each of the five events has its own details text, so equal details mean equal events |
| `LogGenerator.GenerateLog` | backend/log_generator.py:24-45 | the record holds the drawn timestamp, bytes, protocol and event and the two generated addresses; the protocol and the event come from their lists; bytes are in [100,50000]; the details follow from the event and the source address; the details are "Routine traffic" exactly for Normal |
| `LogGenerator.RowMatchesHeader` | backend/log_generator.py:16-45 | a record line is written as 7 fields, like the header; its fourth field, under `bytes`, reads back as the byte count; no record line is written like the header |
| `LogGenerator.EntryLines` | backend/log_generator.py:50-58 | the loop appends one record line per draw, and every such record has a byte count in [100,50000] |
| `LogGenerator.LogFile.constructor` | backend/log_generator.py:19 | a file that is not present has no lines |
| `LogGenerator.LogFile.Run` | backend/log_generator.py:50-58 | the file is present afterwards; the run appends the header line only if the file was not present, then one record line per iteration, in order |
| `LogGenerator.LaterLines` | backend/log_generator.py:19-58 | any number of runs on an existing file append one record line per iteration in total, and no header |
| `LogGenerator.HeaderOnce` | backend/log_generator.py:19-58 | a file created by one run and extended by any number of later runs has the header once, as line 0, then one record line of 7 fields per iteration, none written like the header |
| `Dashboard.Filter` | frontend/components/Dashboard.tsx:28 | every element of the result passes the test and comes from the input; every passing input element is in the result; the result is no longer than the input |
| `Dashboard.FilterCounts` | frontend/components/Dashboard.tsx:28 | the result holds every copy of each passing element and no copy of a failing one |
| `Dashboard.ComputeStats` | frontend/components/Dashboard.tsx:28-33 | total is the number of logs, and active_anomalies <= threats <= total |
| `Dashboard.FilterSplits` | frontend/components/Dashboard.tsx:28 | threats plus non-threats equals the number of logs |
| `Dashboard.LowercaseNormalIsThreat` | frontend/components/Dashboard.tsx:28 | a log typed `normal` in lower case counts as a threat |
| `Dashboard.View.constructor` | frontend/components/Dashboard.tsx:17-18 | no logs, and all counters are zero |
| `Dashboard.View.FetchLogs` | frontend/components/Dashboard.tsx:21-36 | a failed fetch leaves logs and counters unchanged; a successful one stores the data and its counters; the counters keep matching the logs |
| `Dashboard.Point` | frontend/components/Dashboard.tsx:45-47 | a point carries the log's rendered time and byte count, and its threat value is 1 exactly for a threat and 0 otherwise |
| `Dashboard.ChartData` | frontend/components/Dashboard.tsx:44-48 | there are min(20, n) points; point k is built from log min(20, n)-1-k, so the 20 most recent logs come oldest first |
| `Dashboard.ChartThreatsCounted` | frontend/components/Dashboard.tsx:44-47 | the chart's threat flags sum to the number of threats among the first 20 logs, which is at most the threat counter |
| `Dashboard.Badge` | frontend/components/Dashboard.tsx:111-113 | the badge is Safe exactly for Normal and Critical for every other type |
| `Dashboard.RecentAlerts` | frontend/components/Dashboard.tsx:105-113 | there are min(10, n) rows; row i shows log i with its badge |
| `Dashboard.BadgeAgreesWithChart` | frontend/components/Dashboard.tsx:44-113 | a table row is Critical exactly when the chart point for the same log is a threat, and exactly when that log is counted as a threat |

## Left out

- The IsolationForest's internals: tree building, subsampling under `random_state`, and the numerics of the decision score. It is library code; its two outputs are parameters.
- Serialization and the filesystem: joblib/pickle, `pd.read_csv`'s parsing, paths, `os.makedirs`, and `print` messages. These are I/O; a file is `Absent`, `Corrupt` or `Stored`, and the trainer's input is the parsed record list.
- Training.ArtifactDir.TrainModel: the only fit failure modelled is an empty matrix. Other estimator or disk-write errors are library and I/O behaviour.
- Serving.PredictAnomaly: the `not model` test is taken as "model is unset". The truthiness of a loaded forest object (its `__len__`) is library behaviour. An empty encoder dict is modelled as falsy.
- Serving.PredictAnomaly: the forest's own checks are reduced to one. Of sklearn's input validation, only the feature-name comparison is modelled, as `FeatureNameMismatch`.
- FastAPI wiring is framework plumbing: CORS, the startup hook, `get_db`, HTTP status transport.
- The log store is persistence: `backend/database.py` and the `/logs/` endpoints.
- Randomness and timing in the generator: the draws, `datetime.now`, `time.sleep` and `KeyboardInterrupt`. They become parameters. An interrupted endless loop becomes a run over a finite list of draws. The weights of `random.choices` do not appear: only the drawn protocol and event do.
- The CSV file is a sequence of lines, each the header or a record; `Render` gives the fields `csv.writer` writes for a line. Quoting and line endings are I/O.
- Dashboard rendering, polling (`setInterval`) and styling are UI. The locale rendering of a timestamp is a parameter `timeOf`. A non-array JSON body is not modelled; the endpoint always returns a list.
- `NetworkGraph3D.tsx`, `ThreatGlobe3D.tsx`, `data/model/app/app.py` and `data/model/train_model.py` are UI code or a separate single-column script. They are not part of this model.
- The backend tests expect fields and keys that the schemas do not define. No property is taken from them, except that `test_logs.py` sends the type `normal`.
