/**
 * Record shapes shared by the components: the API's log body and prediction
 * response, and one row of the generated traffic CSV that the generator
 * writes and the trainer reads.
 */
module Records {
  import opened Wrappers

  /** `LogBase`, also the body of a prediction request; `details` may be absent. */
  datatype LogBase = LogBase(
    source_ip: string,
    destination_ip: string,
    protocol: string,
    bytes_transferred: int,
    event_type: string,
    details: Option<string>)

  /** `PredictionResponse`: the verdict and the raw decision score. */
  datatype PredictionResponse = PredictionResponse(is_anomaly: bool, anomaly_score: real)

  /** One data row of the generated CSV, field by field in header order. */
  datatype LogEntry = LogEntry(
    timestamp: string,
    source_ip: string,
    destination_ip: string,
    bytes: int,
    protocol: string,
    event_type: string,
    details: string)

  /** The CSV header row; its fourth name, `bytes`, is the column the trainer reads. */
  const Header: seq<string> :=
    ["timestamp", "source_ip", "destination_ip", "bytes", "protocol", "event_type", "details"]
}
