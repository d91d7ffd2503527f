/** LogProcessor.generate_report_data (exercise_1/process_logs.py): one record per
    ip_stats entry, in the mapping's insertion order, then Python's stable sort by
    descending request count. */
module LogReport {
  import opened LogStats

  /** One report row: ip_address, requests, requests_percentage, bytes_sent,
      bytes_percentage. */
  datatype ReportRecord = ReportRecord(
    ipAddress: string,
    requests: nat,
    requestsPercentage: real,
    bytesSent: int,
    bytesPercentage: real)

  /** A client's share of a total, in percent, before rounding to two places;
      0 when the total is 0 (the `if self.total_...` guard tests for nonzero). */
  function Share(x: int, total: int): (p: real)
    ensures total == 0 ==> p == 0.0
    ensures total != 0 ==> p * (total as real) == (x as real) * 100.0
  {
    if total != 0 then (x as real) / (total as real) * 100.0 else 0.0
  }

  function RecordOf(a: Aggregate, client: string): ReportRecord
    requires client in a.stats
  {
    var s := a.stats[client];
    ReportRecord(client, s.requests, Share(s.requests, a.totalRequests), s.bytes, Share(s.bytes, a.totalBytes))
  }

  /** The records of the listed clients, in the listed order. */
  function RecordsFor(a: Aggregate, clients: seq<string>): (rs: seq<ReportRecord>)
    requires forall c :: c in clients ==> c in a.stats
    ensures |rs| == |clients|
    ensures forall i :: 0 <= i < |clients| ==> rs[i] == RecordOf(a, clients[i])
  {
    if clients == [] then [] else [RecordOf(a, clients[0])] + RecordsFor(a, clients[1..])
  }

  /** The report before sorting: one record per ip_stats key, in insertion order. */
  function Records(a: Aggregate): seq<ReportRecord>
    requires forall c :: c in a.clients ==> c in a.stats
  {
    RecordsFor(a, a.clients)
  }

  /** The records with exactly k requests, in their order. */
  function WithRequests(rs: seq<ReportRecord>, k: nat): seq<ReportRecord> {
    if rs == [] then []
    else (if rs[0].requests == k then [rs[0]] else []) + WithRequests(rs[1..], k)
  }

  ghost predicate SortedByRequests(rs: seq<ReportRecord>) {
    forall i, j :: 0 <= i < j < |rs| ==> rs[i].requests >= rs[j].requests
  }

  /** Put x in front of the first record that does not have more requests than x. */
  function InsertByRequests(x: ReportRecord, rs: seq<ReportRecord>): seq<ReportRecord> {
    if rs == [] || rs[0].requests <= x.requests then [x] + rs
    else [rs[0]] + InsertByRequests(x, rs[1..])
  }

  /** `sorted(records, key=lambda x: -x['requests'])`: descending by requests, and
      stable, so records with equal counts keep their relative order. Any stable
      sort gives this same sequence; insertion sort stands in for Timsort. */
  function SortByRequests(rs: seq<ReportRecord>): (r: seq<ReportRecord>)
    ensures SortedByRequests(r)
    ensures multiset(r) == multiset(rs)
    ensures forall k :: WithRequests(r, k) == WithRequests(rs, k)
  {
    if rs == [] then []
    else
      var rest := SortByRequests(rs[1..]);
      InsertProperties(rs[0], rest);
      assert rs == [rs[0]] + rs[1..];
      FilterConsAll(rs[0], rs[1..]);
      FilterConsAll(rs[0], rest);
      InsertByRequests(rs[0], rest)
  }

  /** generate_report_data. */
  function Report(a: Aggregate): seq<ReportRecord>
    requires forall c :: c in a.clients ==> c in a.stats
  {
    SortByRequests(Records(a))
  }

  /** The sum of requests (or bytes_sent) over records. */
  function RecordsTotal(rs: seq<ReportRecord>, k: Counter): int {
    if rs == [] then 0
    else (match k case Requests => rs[0].requests case Bytes => rs[0].bytesSent) + RecordsTotal(rs[1..], k)
  }

  /* ---------------------------------------------------------------------------
     Insertion
     ------------------------------------------------------------------------- */

  lemma FilterConsAll(x: ReportRecord, rs: seq<ReportRecord>)
    ensures forall k :: WithRequests([x] + rs, k) == (if x.requests == k then [x] else []) + WithRequests(rs, k)
  {
    assert ([x] + rs)[1..] == rs;
  }

  lemma InsertProperties(x: ReportRecord, rs: seq<ReportRecord>)
    ensures multiset(InsertByRequests(x, rs)) == multiset([x] + rs)
    ensures SortedByRequests(rs) ==> SortedByRequests(InsertByRequests(x, rs))
    ensures forall k :: WithRequests(InsertByRequests(x, rs), k) == WithRequests([x] + rs, k)
    ensures RecordsTotal(InsertByRequests(x, rs), Requests) == x.requests + RecordsTotal(rs, Requests)
    ensures RecordsTotal(InsertByRequests(x, rs), Bytes) == x.bytesSent + RecordsTotal(rs, Bytes)
  {
    InsertMultiset(x, rs);
    if SortedByRequests(rs) {
      InsertSorted(x, rs);
    }
    forall k {
      InsertFilter(x, rs, k);
    }
    InsertTotals(x, rs);
  }

  lemma {:induction false} InsertMultiset(x: ReportRecord, rs: seq<ReportRecord>)
    ensures multiset(InsertByRequests(x, rs)) == multiset([x] + rs)
    decreases |rs|
  {
    if rs != [] && rs[0].requests > x.requests {
      InsertMultiset(x, rs[1..]);
      assert rs == [rs[0]] + rs[1..];
    }
  }

  lemma {:induction false} InsertSorted(x: ReportRecord, rs: seq<ReportRecord>)
    requires SortedByRequests(rs)
    ensures SortedByRequests(InsertByRequests(x, rs))
    decreases |rs|
  {
    if rs != [] && rs[0].requests > x.requests {
      var y, inserted := rs[0], InsertByRequests(x, rs[1..]);
      InsertSorted(x, rs[1..]);
      InsertBelow(x, rs[1..], y.requests);
      assert InsertByRequests(x, rs) == [y] + inserted;
    }
  }

  /** A bound on the counts of x and of every record in rs bounds the counts after
      the insertion. */
  lemma {:induction false} InsertBelow(x: ReportRecord, rs: seq<ReportRecord>, bound: nat)
    requires x.requests <= bound
    requires forall i :: 0 <= i < |rs| ==> rs[i].requests <= bound
    ensures forall i :: 0 <= i < |InsertByRequests(x, rs)| ==> InsertByRequests(x, rs)[i].requests <= bound
    decreases |rs|
  {
    if rs != [] && rs[0].requests > x.requests {
      InsertBelow(x, rs[1..], bound);
      assert InsertByRequests(x, rs) == [rs[0]] + InsertByRequests(x, rs[1..]);
    }
  }

  /** Inserting x in front of the records with at most its count keeps, for every
      count k, the records with count k in the order "x first, then rs". */
  lemma {:induction false} InsertFilter(x: ReportRecord, rs: seq<ReportRecord>, k: nat)
    ensures WithRequests(InsertByRequests(x, rs), k) == WithRequests([x] + rs, k)
    decreases |rs|
  {
    if rs != [] && rs[0].requests > x.requests {
      var y, tail := rs[0], rs[1..];
      var fx := if x.requests == k then [x] else [];
      var fy := if y.requests == k then [y] else [];
      assert rs == [y] + tail;
      calc {
        WithRequests(InsertByRequests(x, rs), k);
        { FilterCons(y, InsertByRequests(x, tail), k); }
        fy + WithRequests(InsertByRequests(x, tail), k);
        { InsertFilter(x, tail, k); }
        fy + WithRequests([x] + tail, k);
        { FilterCons(x, tail, k); }
        fy + (fx + WithRequests(tail, k));
        { assert fx == [] || fy == []; }
        fx + (fy + WithRequests(tail, k));
        { FilterCons(y, tail, k); }
        fx + WithRequests(rs, k);
        { FilterCons(x, rs, k); }
        WithRequests([x] + rs, k);
      }
    }
  }

  lemma FilterCons(x: ReportRecord, rs: seq<ReportRecord>, k: nat)
    ensures WithRequests([x] + rs, k) == (if x.requests == k then [x] else []) + WithRequests(rs, k)
  {
    assert ([x] + rs)[1..] == rs;
  }

  lemma {:induction false} InsertTotals(x: ReportRecord, rs: seq<ReportRecord>)
    ensures RecordsTotal(InsertByRequests(x, rs), Requests) == x.requests + RecordsTotal(rs, Requests)
    ensures RecordsTotal(InsertByRequests(x, rs), Bytes) == x.bytesSent + RecordsTotal(rs, Bytes)
    decreases |rs|
  {
    var r := InsertByRequests(x, rs);
    if rs == [] || rs[0].requests <= x.requests {
      assert r[1..] == rs;
    } else {
      InsertTotals(x, rs[1..]);
      assert r[1..] == InsertByRequests(x, rs[1..]);
    }
  }

  /* ---------------------------------------------------------------------------
     Properties of the report
     ------------------------------------------------------------------------- */

  /** Exactly one record per ip_stats key: the report is a permutation of the
      records built in key order, each copying its client's counters unchanged. */
  lemma ReportContents(a: Aggregate)
    requires WellFormed(a)
    ensures |Records(a)| == |a.clients| == |Report(a)|
    ensures forall i :: 0 <= i < |a.clients| ==> Records(a)[i] == RecordOf(a, a.clients[i])
    ensures multiset(Report(a)) == multiset(Records(a))
    ensures forall c :: c in a.stats ==> RecordOf(a, c) in Report(a)
    ensures forall r :: r in Report(a) ==> r.ipAddress in a.stats && r == RecordOf(a, r.ipAddress)
  {
    var rs, report := Records(a), Report(a);
    assert |report| == |rs| by {
      assert |multiset(report)| == |multiset(rs)|;
    }
    forall c | c in a.stats
      ensures RecordOf(a, c) in report
    {
      var i :| 0 <= i < |a.clients| && a.clients[i] == c;
      assert rs[i] in multiset(rs);
    }
    forall r | r in report
      ensures r.ipAddress in a.stats && r == RecordOf(a, r.ipAddress)
    {
      assert r in multiset(rs);
      var i :| 0 <= i < |rs| && rs[i] == r;
    }
  }

  /** The report is ordered by requests, highest first, and clients with equal
      counts stay in the order they first appeared in the mapping. */
  lemma ReportOrder(a: Aggregate)
    requires WellFormed(a)
    ensures SortedByRequests(Report(a))
    ensures forall k :: WithRequests(Report(a), k) == WithRequests(Records(a), k)
  {
  }

  lemma {:induction false} SortKeepsTotals(rs: seq<ReportRecord>)
    ensures RecordsTotal(SortByRequests(rs), Requests) == RecordsTotal(rs, Requests)
    ensures RecordsTotal(SortByRequests(rs), Bytes) == RecordsTotal(rs, Bytes)
    decreases |rs|
  {
    if rs != [] {
      SortKeepsTotals(rs[1..]);
      InsertProperties(rs[0], SortByRequests(rs[1..]));
    }
  }

  lemma {:induction false} RecordsForTotals(a: Aggregate, clients: seq<string>)
    requires forall c :: c in clients ==> c in a.stats
    ensures RecordsTotal(RecordsFor(a, clients), Requests) == Total(clients, a.stats, Requests)
    ensures RecordsTotal(RecordsFor(a, clients), Bytes) == Total(clients, a.stats, Bytes)
    decreases |clients|
  {
    if clients != [] {
      RecordsForTotals(a, clients[1..]);
      assert RecordsFor(a, clients)[1..] == RecordsFor(a, clients[1..]);
    }
  }

  /** When the totals agree with the mapping, the report's requests add up to
      total_requests and its bytes_sent to total_bytes. */
  lemma ReportTotals(a: Aggregate)
    requires Consistent(a)
    ensures RecordsTotal(Report(a), Requests) == a.totalRequests
    ensures RecordsTotal(Report(a), Bytes) == a.totalBytes
  {
    SortKeepsTotals(Records(a));
    RecordsForTotals(a, a.clients);
  }

  /** A share of a zero total is 0. */
  lemma ZeroTotalZeroShare(a: Aggregate)
    requires WellFormed(a)
    ensures a.totalRequests == 0 ==> forall r :: r in Report(a) ==> r.requestsPercentage == 0.0
    ensures a.totalBytes == 0 ==> forall r :: r in Report(a) ==> r.bytesPercentage == 0.0
  {
    ReportContents(a);
  }

  lemma ShareBetween(x: int, total: int)
    requires 0 <= x <= total
    ensures 0.0 <= Share(x, total) <= 100.0
  {
    if total != 0 {
      var q := (x as real) / (total as real);
      assert q * (total as real) == x as real;
      assert 0.0 <= q <= 1.0;
    }
  }

  lemma {:induction false} CountAtMostTotal(clients: seq<string>, stats: map<string, ClientStats>, c: string, k: Counter)
    requires forall x :: x in clients ==> x in stats && Count(stats[x], k) >= 0
    requires c in clients
    ensures 0 <= Count(stats[c], k) <= Total(clients, stats, k)
    decreases |clients|
  {
    TotalNonNegative(clients[1..], stats, k);
    if clients[0] != c {
      CountAtMostTotal(clients[1..], stats, c, k);
    }
  }

  lemma {:induction false} TotalNonNegative(clients: seq<string>, stats: map<string, ClientStats>, k: Counter)
    requires forall x :: x in clients ==> x in stats && Count(stats[x], k) >= 0
    ensures Total(clients, stats, k) >= 0
    decreases |clients|
  {
    if clients != [] {
      TotalNonNegative(clients[1..], stats, k);
    }
  }

  /** When the totals agree with the mapping and no byte count is negative, every
      percentage lies between 0 and 100. */
  lemma SharesInRange(a: Aggregate)
    requires Consistent(a)
    requires forall c :: c in a.stats ==> a.stats[c].bytes >= 0
    ensures forall r :: r in Report(a) ==>
      0.0 <= r.requestsPercentage <= 100.0 && 0.0 <= r.bytesPercentage <= 100.0
  {
    ReportContents(a);
    forall r | r in Report(a)
      ensures 0.0 <= r.requestsPercentage <= 100.0 && 0.0 <= r.bytesPercentage <= 100.0
    {
      var c := r.ipAddress;
      CountAtMostTotal(a.clients, a.stats, c, Requests);
      CountAtMostTotal(a.clients, a.stats, c, Bytes);
      ShareBetween(a.stats[c].requests, a.totalRequests);
      ShareBetween(a.stats[c].bytes, a.totalBytes);
    }
  }
}
