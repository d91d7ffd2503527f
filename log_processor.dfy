/** The LogProcessor class of exercise_1/process_logs.py: the ip_stats mapping and
    the two running totals are fields that process_logs updates line by line.
    The log arrives as a sequence of lines instead of a file to open. */
module LogProcessing {
  import opened Wrappers
  import opened PyText
  import opened LogStats
  import opened LogReport

  class LogProcessor {
    const logFile: string
    /** The keys of ip_stats in insertion order, and ip_stats itself. */
    var clients: seq<string>
    var ipStats: map<string, ClientStats>
    var totalRequests: nat
    var totalBytes: int

    /** The fields as one aggregate value. */
    function State(): Aggregate
      reads this
    {
      Aggregate(clients, ipStats, totalRequests, totalBytes)
    }

    ghost predicate Valid()
      reads this
    {
      WellFormed(State())
    }

    /** __init__: an empty mapping and zero totals. */
    constructor (logFile: string)
      ensures Valid() && Consistent(State())
      ensures this.logFile == logFile && State() == Empty()
    {
      this.logFile := logFile;
      clients := [];
      ipStats := map[];
      totalRequests := 0;
      totalBytes := 0;
    }

    /** The body of the loop in process_logs, for one line. Returns the warning
        printed for the line, if any. */
    method ProcessLine(line: string) returns (warning: Option<string>)
      requires Valid()
      modifies this
      ensures Valid()
      ensures State() == Step(old(State()), line)
      ensures warning == if Classify(line).Warns() then Some(Strip(line)) else None
    {
      warning := None;
      var stripped := Strip(line);
      if stripped == [] {
        assert Classify(line) == Blank;
        return;
      }
      var fields := Split(stripped, ';');
      assert fields == Fields(line);
      if |fields| != 4 {
        warning := Some(stripped);
        assert Classify(line) == WrongFieldCount;
        return;
      }
      var bytesSent, status, ipAddr := fields[1], fields[2], fields[3];
      if Upper(status) != "OK" {
        assert Classify(line) == NotOk;
        return;
      }
      // int() has no side effects, so reading the byte field before counting the
      // request changes nothing; RecordOkLine applies the result in source order.
      var bytes := ParseInt(bytesSent);
      ghost var before := State();
      StepOfOkLine(before, line, ipAddr, bytes);
      warning := RecordOkLine(stripped, bytes, ipAddr);
    }

    /** Lines 28-31 for a four-field OK line whose byte field int() turns into
        bytes: count the request, then add the bytes to the client and to the
        totals. When int() raised (None) the request stays counted and the
        stripped line is the warning. */
    method RecordOkLine(stripped: string, bytes: Option<int>, client: string) returns (warning: Option<string>)
      requires Valid()
      modifies this
      ensures Valid()
      ensures bytes.None? ==>
        warning == Some(stripped) && State() == Credit(old(State()), client, 1, 0)
      ensures bytes.Some? ==>
        warning == None && State() == Credit(old(State()), client, 1, bytes.value).(
          totalRequests := old(totalRequests) + 1, totalBytes := old(totalBytes) + bytes.value)
    {
      ghost var before := State();
      CountRequest(client);
      if bytes.None? {
        return Some(stripped);
      }
      AddBytes(client, bytes.value);
      CreditInTwoSteps(before, client, 1, bytes.value);
      warning := None;
    }

    /** ip_stats[client]['requests'] += 1 on the defaultdict: the entry is created
        with zero counters the first time the client is seen. */
    method CountRequest(client: string)
      requires Valid()
      modifies this
      ensures Valid() && client in ipStats
      ensures State() == Credit(old(State()), client, 1, 0)
    {
      ghost var before := State();
      var entry := if client in ipStats then ipStats[client] else ClientStats(0, 0);
      if client !in ipStats {
        clients := clients + [client];
      }
      ipStats := ipStats[client := entry.(requests := entry.requests + 1)];
      CreditWellFormed(before, client, 1, 0);
      assert State() == Credit(before, client, 1, 0);
    }

    /** ip_stats[client]['bytes'] += n on an existing entry, then the two totals
        (lines 29-31). */
    method AddBytes(client: string, n: int)
      requires Valid() && client in ipStats
      modifies this
      ensures Valid()
      ensures State() == Credit(old(State()), client, 0, n).(
        totalRequests := old(totalRequests) + 1, totalBytes := old(totalBytes) + n)
    {
      ghost var before := State();
      ghost var credited := Credit(before, client, 0, n);
      CreditWellFormed(before, client, 0, n);
      ipStats := ipStats[client := ipStats[client].(bytes := ipStats[client].bytes + n)];
      assert ipStats == credited.stats && clients == credited.clients;
      totalRequests := totalRequests + 1;
      totalBytes := totalBytes + n;
    }

    /** process_logs over the lines of the log, in order. Returns the warnings
        printed, in order. */
    method ProcessLogs(lines: seq<string>) returns (warnings: seq<string>)
      requires Valid()
      modifies this
      ensures Valid()
      ensures State() == Run(old(State()), lines)
      ensures warnings == Warnings(lines)
    {
      warnings := [];
      for i := 0 to |lines|
        invariant Valid()
        invariant State() == Run(old(State()), lines[..i])
        invariant warnings == Warnings(lines[..i])
      {
        RunPrefixStep(old(State()), lines, i);
        var warning := ProcessLine(lines[i]);
        if warning.Some? {
          warnings := warnings + [warning.value];
        }
      }
      assert lines[..|lines|] == lines;
    }

    /** generate_report_data on the current state: one record per client seen,
        most requests first, clients with equal counts in the order they were
        first seen. */
    function GenerateReportData(): (report: seq<ReportRecord>)
      reads this
      requires Valid()
      ensures |report| == |clients|
      ensures forall c :: c in ipStats ==> RecordOf(State(), c) in report
      ensures forall r :: r in report ==> r.ipAddress in ipStats && r == RecordOf(State(), r.ipAddress)
      ensures SortedByRequests(report)
      ensures forall k :: WithRequests(report, k) == WithRequests(Records(State()), k)
    {
      ReportContents(State());
      ReportOrder(State());
      Report(State())
    }
  }
}
