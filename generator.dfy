/**
 * The synthetic traffic generator. Every random draw (the octets, the byte
 * count, the protocol and event choices) and the clock reading are
 * parameters, so building one record is a function; the append loop writes
 * rows to the CSV file, with the header only when the file did not exist.
 */
module LogGenerator {
  import opened Wrappers
  import opened Text
  import opened Records

  const Protocols: seq<string> := ["TCP", "UDP", "ICMP", "HTTP", "HTTPS"]
  const Events: seq<string> := ["Normal", "Failed Login", "Port Scan", "Malware Detected", "File Access"]

  /** The four `random.randint` draws of one address. */
  datatype IpDraw = IpDraw(a: int, b: int, c: int, d: int)

  /** What `randint(10, 192)`, `randint(0, 255)` twice and `randint(1, 255)` can return. */
  predicate IpDrawInRange(ip: IpDraw) {
    10 <= ip.a <= 192 && 0 <= ip.b <= 255 && 0 <= ip.c <= 255 && 1 <= ip.d <= 255
  }

  /** `generate_ip()`: the four draws joined by dots. */
  function GenerateIp(ip: IpDraw): (s: string)
    requires IpDrawInRange(ip)
    ensures Split(s, '.') == [DecimalString(ip.a), DecimalString(ip.b), DecimalString(ip.c), DecimalString(ip.d)]
  {
    IpSplits(ip);
    DecimalString(ip.a) + "." + DecimalString(ip.b) + "." + DecimalString(ip.c) + "." + DecimalString(ip.d)
  }

  /** A generated address reads back as four dot-separated decimal octets, the first in
      [10, 192], the second and third in [0, 255], the fourth in [1, 255]. */
  lemma GeneratedIpOctets(ip: IpDraw)
    requires IpDrawInRange(ip)
    ensures var parts := Split(GenerateIp(ip), '.');
      |parts| == 4 &&
      ParseDecimal(parts[0]) == Some(ip.a as nat) && ParseDecimal(parts[1]) == Some(ip.b as nat) &&
      ParseDecimal(parts[2]) == Some(ip.c as nat) && ParseDecimal(parts[3]) == Some(ip.d as nat)
    ensures var parts := Split(GenerateIp(ip), '.');
      10 <= ParseDecimal(parts[0]).value <= 192 && ParseDecimal(parts[1]).value <= 255 &&
      ParseDecimal(parts[2]).value <= 255 && 1 <= ParseDecimal(parts[3]).value <= 255
  {
    DecimalRoundTrip(ip.a);
    DecimalRoundTrip(ip.b);
    DecimalRoundTrip(ip.c);
    DecimalRoundTrip(ip.d);
  }

  /** The four decimal renderings joined by dots split back into those four pieces. */
  lemma IpSplits(ip: IpDraw)
    requires IpDrawInRange(ip)
    ensures var p0, p1, p2, p3 := DecimalString(ip.a), DecimalString(ip.b), DecimalString(ip.c), DecimalString(ip.d);
      Split(p0 + "." + p1 + "." + p2 + "." + p3, '.') == [p0, p1, p2, p3]
  {
    var p0, p1, p2, p3 := DecimalString(ip.a), DecimalString(ip.b), DecimalString(ip.c), DecimalString(ip.d);
    assert '.' !in p0 && '.' !in p1 && '.' !in p2 && '.' !in p3 by {
      assert !IsDigit('.');
    }
    assert p0 + "." + p1 + "." + p2 + "." + p3 == p0 + ['.'] + (p1 + ['.'] + (p2 + ['.'] + p3));
    SplitAtSeparator(p0, '.', p1 + ['.'] + (p2 + ['.'] + p3));
    SplitAtSeparator(p1, '.', p2 + ['.'] + p3);
    SplitAtSeparator(p2, '.', p3);
    SplitNoSeparator(p3, '.');
  }

  /** The draws behind one record: the clock reading, two addresses, the byte count and the
      protocol and event that `random.choice` and `random.choices` picked from their lists. */
  datatype LogDraw = LogDraw(timestamp: string, src: IpDraw, dst: IpDraw, bytes: int, protocol: string, event: string)

  predicate DrawInRange(d: LogDraw) {
    IpDrawInRange(d.src) && IpDrawInRange(d.dst) && 100 <= d.bytes <= 50000 &&
    d.protocol in Protocols && d.event in Events
  }

  /** The `details` text of a record, chosen by its event type. */
  function Details(eventType: string, src: string): (d: string)
    ensures eventType == "Failed Login" || eventType == "Port Scan" ==>
      |src| <= |d| && d[|d| - |src|..] == src
    ensures eventType != "Failed Login" && eventType != "Port Scan" ==>
      d in ["Signature match: Trojan.Win32", "Accessed /etc/passwd", "Routine traffic"]
  {
    if eventType == "Failed Login" then "Failed attempt from " + src
    else if eventType == "Port Scan" then "Multiple ports scanned by " + src
    else if eventType == "Malware Detected" then "Signature match: Trojan.Win32"
    else if eventType == "File Access" then "Accessed /etc/passwd"
    else "Routine traffic"
  }

  /** Every listed event has its own `details` wording, so the text tells the event apart. */
  lemma DetailsIdentifyEvent(e1: string, src1: string, e2: string, src2: string)
    requires e1 in Events && e2 in Events
    requires Details(e1, src1) == Details(e2, src2)
    ensures e1 == e2
  {
    var d1, d2 := Details(e1, src1), Details(e2, src2);
    assert d1[0] == d2[0];
  }

  /** `generate_log()`: a record whose protocol and event come from the two lists, whose
      byte count is in [100, 50000] and whose details follow from its event and source. */
  function GenerateLog(d: LogDraw): (e: LogEntry)
    requires DrawInRange(d)
    ensures e.timestamp == d.timestamp && e.bytes == d.bytes
    ensures e.protocol == d.protocol && e.event_type == d.event
    ensures e.protocol in Protocols && e.event_type in Events
    ensures 100 <= e.bytes <= 50000
    ensures e.source_ip == GenerateIp(d.src) && e.destination_ip == GenerateIp(d.dst)
    ensures e.details == Details(e.event_type, e.source_ip)
    ensures e.event_type == "Normal" <==> e.details == "Routine traffic"
  {
    var src := GenerateIp(d.src);
    var eventType := d.event;
    assert Details(eventType, src) == "Routine traffic" ==> eventType == "Normal" by {
      if Details(eventType, src) == "Routine traffic" {
        DetailsIdentifyEvent(eventType, src, "Normal", src);
      }
    }
    LogEntry(d.timestamp, src, GenerateIp(d.dst), d.bytes, d.protocol, eventType,
             Details(eventType, src))
  }

  /** A line of the CSV file: the header or a record. */
  datatype CsvLine = HeaderLine | EntryLine(entry: LogEntry)

  /** The list `csv.writer` writes for a line, in header order; the byte count as `str`. */
  function Render(line: CsvLine): seq<string>
    requires line.EntryLine? ==> line.entry.bytes >= 0
  {
    match line
    case HeaderLine => Header
    case EntryLine(e) =>
      [e.timestamp, e.source_ip, e.destination_ip, DecimalString(e.bytes), e.protocol, e.event_type, e.details]
  }

  /** A record line has one field per header name, its `bytes` field reads back as the byte
      count, and its text is never the header's. */
  lemma RowMatchesHeader(e: LogEntry)
    requires e.bytes >= 0
    ensures |Render(EntryLine(e))| == |Render(HeaderLine)| == 7
    ensures Header[3] == "bytes" && ParseDecimal(Render(EntryLine(e))[3]) == Some(e.bytes as nat)
    ensures Render(EntryLine(e)) != Render(HeaderLine)
  {
    DecimalRoundTrip(e.bytes);
    assert ParseDecimal(Header[3]) == None by {
      assert !IsDigit(Header[3][0]);
    }
  }

  predicate AllInRange(draws: seq<LogDraw>) {
    forall i :: 0 <= i < |draws| ==> DrawInRange(draws[i])
  }

  /** The lines the iterations append, one record per draw, in draw order. */
  function EntryLines(draws: seq<LogDraw>): (lines: seq<CsvLine>)
    requires AllInRange(draws)
    ensures |lines| == |draws|
    ensures forall k :: 0 <= k < |lines| ==> lines[k].EntryLine? && 100 <= lines[k].entry.bytes <= 50000
  {
    if |draws| == 0 then []
    else EntryLines(draws[..|draws| - 1]) + [EntryLine(GenerateLog(draws[|draws| - 1]))]
  }

  /** What one run of the generator appends: the header if the file did not exist, then one
      record per iteration. */
  function SessionLines(existed: bool, draws: seq<LogDraw>): seq<CsvLine>
    requires AllInRange(draws)
  {
    (if existed then [] else [HeaderLine]) + EntryLines(draws)
  }

  /** One more iteration appends one more record line. */
  lemma EntryLinesSnoc(draws: seq<LogDraw>, i: nat)
    requires AllInRange(draws) && i < |draws|
    ensures EntryLines(draws[..i + 1]) == EntryLines(draws[..i]) + [EntryLine(GenerateLog(draws[i]))]
  {
    assert draws[..i + 1][..i] == draws[..i];
  }

  /** The loop step, stated on the whole file so that the loop needs no sequence reasoning. */
  lemma AppendLine(start: seq<CsvLine>, draws: seq<LogDraw>, i: nat)
    requires AllInRange(draws) && i < |draws|
    ensures start + EntryLines(draws[..i]) + [EntryLine(GenerateLog(draws[i]))] == start + EntryLines(draws[..i + 1])
  {
    EntryLinesSnoc(draws, i);
    AppendAssoc(start, EntryLines(draws[..i]), [EntryLine(GenerateLog(draws[i]))]);
  }

  /** The file after the header step and the loop is the old file plus the session's lines. */
  lemma SessionShape(prior: seq<CsvLine>, existed: bool, draws: seq<LogDraw>)
    requires AllInRange(draws)
    ensures (if existed then prior else prior + [HeaderLine]) + EntryLines(draws) == prior + SessionLines(existed, draws)
  {
    if existed {
      EmptyAppend(EntryLines(draws));
    } else {
      AppendAssoc(prior, [HeaderLine], EntryLines(draws));
    }
  }

  lemma EmptyAppend<T>(a: seq<T>)
    ensures [] + a == a
  {
  }

  lemma AppendAssoc<T>(a: seq<T>, b: seq<T>, c: seq<T>)
    ensures a + b + c == a + (b + c)
  {
  }

  /** The CSV file: whether it is present, and its lines. */
  class LogFile {
    var present: bool
    var rows: seq<CsvLine>

    ghost predicate Valid()
      reads this
    {
      !present ==> rows == []
    }

    constructor (present: bool, rows: seq<CsvLine>)
      requires !present ==> rows == []
      ensures Valid() && this.present == present && this.rows == rows
    {
      this.present, this.rows := present, rows;
    }

    /** The module body, run until it is interrupted after `|draws|` iterations. */
    method Run(draws: seq<LogDraw>)
      requires Valid() && AllInRange(draws)
      modifies this
      ensures Valid() && present
      ensures rows == old(rows) + SessionLines(old(present), draws)
    {
      var fileExists := present;
      present := true;  // opening in append mode creates the file
      if !fileExists {
        rows := rows + [HeaderLine];
      }
      ghost var start := rows;
      var i := 0;
      while i < |draws|
        invariant 0 <= i <= |draws|
        invariant present
        invariant rows == start + EntryLines(draws[..i])
      {
        var line := EntryLine(GenerateLog(draws[i]));
        AppendLine(start, draws, i);
        rows := rows + [line];
        i := i + 1;
      }
      assert draws[..i] == draws;
      SessionShape(old(rows), fileExists, draws);
    }
  }

  predicate AllRunsInRange(runs: seq<seq<LogDraw>>) {
    forall r :: 0 <= r < |runs| ==> AllInRange(runs[r])
  }

  /** The number of iterations of all the runs together. */
  function TotalDraws(runs: seq<seq<LogDraw>>): nat {
    if |runs| == 0 then 0 else TotalDraws(runs[..|runs| - 1]) + |runs[|runs| - 1]|
  }

  /** Every line is a record line whose byte count is never negative. */
  predicate AllRecords(lines: seq<CsvLine>) {
    forall k :: 0 <= k < |lines| ==> lines[k].EntryLine? && lines[k].entry.bytes >= 0
  }

  /** What a sequence of runs on a file that already exists appends, run after run. */
  function LaterLines(runs: seq<seq<LogDraw>>): (lines: seq<CsvLine>)
    requires AllRunsInRange(runs)
    ensures |lines| == TotalDraws(runs) && AllRecords(lines)
  {
    if |runs| == 0 then []
    else
      var before, last := LaterLines(runs[..|runs| - 1]), SessionLines(true, runs[|runs| - 1]);
      EmptyAppend(EntryLines(runs[|runs| - 1]));
      assert AllRecords(before + last) by {
        forall k | 0 <= k < |before + last|
          ensures (before + last)[k].EntryLine? && (before + last)[k].entry.bytes >= 0
        {
          if k >= |before| {
            assert (before + last)[k] == last[k - |before|];
          }
        }
      }
      before + last
  }

  /** A file created by one run and extended by any number of later runs holds the header
      once, as its first line, followed by exactly one record line per iteration, each of
      seven fields and none reading as the header. */
  lemma HeaderOnce(first: seq<LogDraw>, later: seq<seq<LogDraw>>)
    requires AllInRange(first) && AllRunsInRange(later)
    ensures var lines := SessionLines(false, first) + LaterLines(later);
      |lines| == 1 + |first| + TotalDraws(later) &&
      lines[0] == HeaderLine &&
      forall k :: 0 < k < |lines| ==>
        lines[k].EntryLine? && |Render(lines[k])| == 7 && Render(lines[k]) != Render(HeaderLine)
  {
    var a, b := EntryLines(first), LaterLines(later);
    assert AllRecords(a);
    HeaderThenRecords(a, b);
  }

  /** The header followed by record lines: the header once, first, and every other line
      a record of seven fields that is not written like the header. */
  lemma HeaderThenRecords(a: seq<CsvLine>, b: seq<CsvLine>)
    requires AllRecords(a) && AllRecords(b)
    ensures var lines := [HeaderLine] + a + b;
      lines[0] == HeaderLine &&
      forall k :: 0 < k < |lines| ==>
        lines[k].EntryLine? && |Render(lines[k])| == 7 && Render(lines[k]) != Render(HeaderLine)
  {
    var lines := [HeaderLine] + a + b;
    forall k | 0 < k < |lines|
      ensures lines[k].EntryLine? && |Render(lines[k])| == 7 && Render(lines[k]) != Render(HeaderLine)
    {
      if k <= |a| {
        assert lines[k] == a[k - 1];
      } else {
        assert lines[k] == b[k - 1 - |a|];
      }
      RowMatchesHeader(lines[k].entry);
    }
  }
}
