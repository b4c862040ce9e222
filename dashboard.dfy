/**
 * The dashboard's computations over the fetched logs: the three counters, the
 * chart series of the twenty most recent logs in chronological order, and the
 * table of the ten most recent logs with their Safe / Critical badge.
 */
module Dashboard {
  import opened Wrappers

  /** The dashboard's `Log` interface. */
  datatype Log = Log(
    id: int,
    timestamp: string,
    source_ip: string,
    destination_ip: string,
    protocol: string,
    bytes_transferred: int,
    event_type: string,
    details: string)

  datatype Stats = Stats(total: nat, threats: nat, active_anomalies: nat)

  /** `l.event_type !== 'Normal'`: case-sensitive, so `"normal"` is a threat. */
  predicate IsThreat(l: Log) {
    l.event_type != "Normal"
  }

  predicate IsActive(l: Log) {
    l.event_type == "Malware Detected" || l.event_type == "DoS"
  }

  function Min(a: nat, b: nat): nat {
    if a < b then a else b
  }

  /** `s.filter(p)`. */
  function Filter(s: seq<Log>, p: Log -> bool): (r: seq<Log>)
    ensures |r| <= |s|
    ensures forall x :: x in r ==> x in s && p(x)
    ensures forall i :: 0 <= i < |s| && p(s[i]) ==> s[i] in r
  {
    if s == [] then [] else (if p(s[0]) then [s[0]] else []) + Filter(s[1..], p)
  }

  /** The filter keeps every copy of a passing element and no copy of a failing one. */
  lemma {:induction false} FilterCounts(s: seq<Log>, p: Log -> bool)
    ensures forall x :: multiset(Filter(s, p))[x] == if p(x) then multiset(s)[x] else 0
    decreases |s|
  {
    if s != [] {
      FilterCounts(s[1..], p);
      assert s == [s[0]] + s[1..];
    }
  }

  lemma {:induction false} FilterAppend(a: seq<Log>, b: seq<Log>, p: Log -> bool)
    ensures Filter(a + b, p) == Filter(a, p) + Filter(b, p)
    decreases |a|
  {
    if a == [] {
      assert a + b == b;
    } else {
      assert (a + b)[0] == a[0] && (a + b)[1..] == a[1..] + b;
      FilterAppend(a[1..], b, p);
    }
  }

  /** A weaker test keeps at least as many elements. */
  lemma {:induction false} FilterMonotone(s: seq<Log>, p: Log -> bool, q: Log -> bool)
    requires forall x :: p(x) ==> q(x)
    ensures |Filter(s, p)| <= |Filter(s, q)|
    decreases |s|
  {
    if s != [] {
      FilterMonotone(s[1..], p, q);
    }
  }

  /** Every log is counted either as a threat or as normal traffic. */
  lemma {:induction false} FilterSplits(s: seq<Log>)
    ensures |Filter(s, IsThreat)| + |Filter(s, (l: Log) => !IsThreat(l))| == |s|
    decreases |s|
  {
    if s != [] {
      FilterSplits(s[1..]);
    }
  }

  /** A prefix holds no more matches than the whole. */
  lemma FilterPrefix(s: seq<Log>, n: nat, p: Log -> bool)
    requires n <= |s|
    ensures |Filter(s[..n], p)| <= |Filter(s, p)|
  {
    FilterAppend(s[..n], s[n..], p);
    assert s[..n] + s[n..] == s;
  }

  /** The counters computed from a fetched list. */
  function ComputeStats(data: seq<Log>): (st: Stats)
    ensures st.total == |data|
    ensures st.active_anomalies <= st.threats <= st.total
  {
    FilterMonotone(data, IsActive, IsThreat);
    Stats(|data|, |Filter(data, IsThreat)|, |Filter(data, IsActive)|)
  }

  /** The comparison is exact: a log whose type is `normal` in lower case counts as a threat. */
  lemma LowercaseNormalIsThreat(l: Log)
    requires l.event_type == "normal"
    ensures ComputeStats([l]) == Stats(1, 1, 0)
  {
    assert [l][1..] == [];
  }

  /** The dashboard's state: the fetched logs and the counters shown. */
  class View {
    var logs: seq<Log>
    var stats: Stats

    ghost predicate Consistent()
      reads this
    {
      stats == ComputeStats(logs)
    }

    constructor ()
      ensures logs == [] && stats == Stats(0, 0, 0) && Consistent()
    {
      logs, stats := [], Stats(0, 0, 0);
    }

    /** `fetchLogs`: `None` is a request or decoding that rejected, which is logged and
        leaves the state as it was. */
    method FetchLogs(response: Option<seq<Log>>)
      modifies this
      ensures response.None? ==> logs == old(logs) && stats == old(stats)
      ensures response.Some? ==> logs == response.value && stats == ComputeStats(response.value)
      ensures old(Consistent()) ==> Consistent()
    {
      if response.Some? {
        var data := response.value;
        logs := data;
        var threats := |Filter(data, IsThreat)|;
        stats := Stats(|data|, threats, |Filter(data, IsActive)|);
      }
    }
  }

  // ---- The chart ----

  datatype ChartPoint = ChartPoint(time: string, bytes: int, threat: int)

  /** One chart point: the rendered time, the byte count, and 1 for a threat, else 0. */
  function Point(l: Log, timeOf: string -> string): (pt: ChartPoint)
    ensures pt.time == timeOf(l.timestamp) && pt.bytes == l.bytes_transferred
    ensures pt.threat == 1 <==> IsThreat(l)
    ensures pt.threat == 0 <==> !IsThreat(l)
  {
    ChartPoint(timeOf(l.timestamp), l.bytes_transferred, if IsThreat(l) then 1 else 0)
  }

  /** `s.reverse()` on a copy. */
  function Reverse(s: seq<Log>): seq<Log> {
    if s == [] then [] else Reverse(s[1..]) + [s[0]]
  }

  lemma {:induction false} ReverseIndex(s: seq<Log>, k: nat)
    requires k < |s|
    ensures |Reverse(s)| == |s| && Reverse(s)[k] == s[|s| - 1 - k]
  {
    if k < |s| - 1 {
      ReverseIndex(s[1..], k);
    } else if |s| > 1 {
      ReverseIndex(s[1..], 0);
    }
  }

  lemma ReverseAll(s: seq<Log>)
    ensures |Reverse(s)| == |s|
    ensures forall k :: 0 <= k < |s| ==> Reverse(s)[k] == s[|s| - 1 - k]
  {
    if s != [] {
      ReverseIndex(s, 0);
    }
    forall k | 0 <= k < |s| ensures Reverse(s)[k] == s[|s| - 1 - k] {
      ReverseIndex(s, k);
    }
  }

  function MapPoints(s: seq<Log>, timeOf: string -> string): (r: seq<ChartPoint>)
    ensures |r| == |s| && forall k :: 0 <= k < |s| ==> r[k] == Point(s[k], timeOf)
  {
    seq(|s|, k requires 0 <= k < |s| => Point(s[k], timeOf))
  }

  /** `logs.slice(0, 20).reverse().map(...)`: the twenty most recent logs, oldest first.
      `timeOf` is the locale's rendering of a timestamp. */
  function ChartData(logs: seq<Log>, timeOf: string -> string): (r: seq<ChartPoint>)
    ensures |r| == Min(20, |logs|)
    ensures forall k :: 0 <= k < |r| ==> r[k] == Point(logs[|r| - 1 - k], timeOf)
  {
    var recent := logs[..Min(20, |logs|)];
    ReverseAll(recent);
    MapPoints(Reverse(recent), timeOf)
  }

  function ThreatSum(points: seq<ChartPoint>): int {
    if points == [] then 0 else points[0].threat + ThreatSum(points[1..])
  }

  lemma {:induction false} ThreatSumAppend(a: seq<ChartPoint>, b: seq<ChartPoint>)
    ensures ThreatSum(a + b) == ThreatSum(a) + ThreatSum(b)
    decreases |a|
  {
    if a == [] {
      assert a + b == b;
    } else {
      assert (a + b)[0] == a[0] && (a + b)[1..] == a[1..] + b;
      ThreatSumAppend(a[1..], b);
    }
  }

  lemma {:induction false} ReversedThreats(s: seq<Log>, timeOf: string -> string)
    ensures ThreatSum(MapPoints(Reverse(s), timeOf)) == |Filter(s, IsThreat)|
    decreases |s|
  {
    if s != [] {
      ReversedThreats(s[1..], timeOf);
      var r := Reverse(s[1..]);
      assert MapPoints(r + [s[0]], timeOf) == MapPoints(r, timeOf) + [Point(s[0], timeOf)];
      ThreatSumAppend(MapPoints(r, timeOf), [Point(s[0], timeOf)]);
    }
  }

  /** The chart's threat marks add up to the number of threats among the twenty most recent
      logs, which is at most the threat counter. */
  lemma ChartThreatsCounted(logs: seq<Log>, timeOf: string -> string)
    ensures ThreatSum(ChartData(logs, timeOf)) == |Filter(logs[..Min(20, |logs|)], IsThreat)|
    ensures ThreatSum(ChartData(logs, timeOf)) <= ComputeStats(logs).threats
  {
    ReversedThreats(logs[..Min(20, |logs|)], timeOf);
    FilterPrefix(logs, Min(20, |logs|), IsThreat);
  }

  // ---- The recent-alerts table ----

  /** The status badge: `Safe` exactly for `Normal` events, `Critical` for every other. */
  function Badge(eventType: string): (b: string)
    ensures b == "Safe" <==> eventType == "Normal"
    ensures b == "Critical" <==> eventType != "Normal"
  {
    if eventType == "Normal" then "Safe" else "Critical"
  }

  datatype AlertRow = AlertRow(key: int, time: string, event: string, source: string, badge: string)

  /** `logs.slice(0, 10).map(...)`: the ten most recent logs, most recent first. */
  function RecentAlerts(logs: seq<Log>, timeOf: string -> string): (rows: seq<AlertRow>)
    ensures |rows| == Min(10, |logs|)
    ensures forall i :: 0 <= i < |rows| ==>
      rows[i] == AlertRow(logs[i].id, timeOf(logs[i].timestamp), logs[i].event_type,
                          logs[i].source_ip, Badge(logs[i].event_type))
  {
    seq(Min(10, |logs|), i requires 0 <= i < Min(10, |logs|) =>
      AlertRow(logs[i].id, timeOf(logs[i].timestamp), logs[i].event_type, logs[i].source_ip,
               Badge(logs[i].event_type)))
  }

  /** The table and the chart mark the same logs: a row is `Critical` exactly when the
      chart point of the same log is a threat, and exactly when the counters count it. */
  lemma BadgeAgreesWithChart(logs: seq<Log>, timeOf: string -> string, i: nat)
    requires i < Min(10, |logs|)
    ensures var n := Min(20, |logs|);
      RecentAlerts(logs, timeOf)[i].badge == "Critical" <==> ChartData(logs, timeOf)[n - 1 - i].threat == 1
    ensures RecentAlerts(logs, timeOf)[i].badge == "Critical" <==> logs[i] in Filter(logs, IsThreat)
  {
  }
}
