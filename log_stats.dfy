/** The per-line logic of LogProcessor.process_logs (exercise_1/process_logs.py)
    as a specification: how one log line is classified, and what it does to the
    aggregate state (the ip_stats mapping and the two running totals). */
module LogStats {
  import opened Wrappers
  import opened PyText

  /** One ip_stats entry: {'requests': ..., 'bytes': ...}. */
  datatype ClientStats = ClientStats(requests: nat, bytes: int)

  /** The aggregate state. Python dicts keep insertion order, so the mapping is a
      map together with its keys in the order they were first inserted. */
  datatype Aggregate = Aggregate(
    clients: seq<string>,
    stats: map<string, ClientStats>,
    totalRequests: nat,
    totalBytes: int)

  /** What the loop body of process_logs does with one line. */
  datatype LineKind =
    | Blank                                // whitespace only: skipped
    | WrongFieldCount                      // not four ';' fields: warning, skipped
    | NotOk                                // status other than OK: skipped silently
    | BadBytes(client: string)             // OK, but int() fails on the byte field
    | Accepted(client: string, bytes: int) // a valid line
  {
    /** The kinds for which a warning is printed (the ValueError handler). */
    predicate Warns() {
      WrongFieldCount? || BadBytes?
    }
  }

  function Empty(): Aggregate {
    Aggregate([], map[], 0, 0)
  }

  /** The ';' fields of the stripped line: timestamp, bytes sent, status, client. */
  function Fields(line: string): seq<string> {
    Split(Strip(line), ';')
  }

  function Classify(line: string): LineKind {
    if Strip(line) == [] then Blank
    else
      var fields := Fields(line);
      if |fields| != 4 then WrongFieldCount
      else if Upper(fields[2]) != "OK" then NotOk
      else match ParseInt(fields[1])
        case None => BadBytes(fields[3])
        case Some(n) => Accepted(fields[3], n)
  }

  /** Keys distinct, and exactly the keys of the map. */
  ghost predicate WellFormed(a: Aggregate) {
    && (forall i, j :: 0 <= i < j < |a.clients| ==> a.clients[i] != a.clients[j])
    && (forall c :: c in a.stats <==> c in a.clients)
  }

  /** The ip_stats entry of a client, the zero record when there is none
      (the defaultdict factory). */
  function StatsOf(a: Aggregate, client: string): ClientStats {
    if client in a.stats then a.stats[client] else ClientStats(0, 0)
  }

  /** Get-or-insert-default, then add to both counters of one client. */
  function Credit(a: Aggregate, client: string, requests: nat, bytes: int): Aggregate {
    var entry := StatsOf(a, client);
    a.(clients := if client in a.stats then a.clients else a.clients + [client],
       stats := a.stats[client := ClientStats(entry.requests + requests, entry.bytes + bytes)])
  }

  /** The effect of one line on the state. For BadBytes, line 28 has already
      counted the request when int() raises at line 29. */
  function Step(a: Aggregate, line: string): Aggregate {
    match Classify(line)
    case BadBytes(client) => Credit(a, client, 1, 0)
    case Accepted(client, n) =>
      var b := Credit(a, client, 1, n);
      b.(totalRequests := b.totalRequests + 1, totalBytes := b.totalBytes + n)
    case _ => a
  }

  /** The state after the lines, in order. */
  function Run(a: Aggregate, lines: seq<string>): Aggregate {
    if lines == [] then a else Step(Run(a, lines[..|lines| - 1]), lines[|lines| - 1])
  }

  /** The warnings printed for the lines, in order: each is the stripped line. */
  function Warnings(lines: seq<string>): seq<string> {
    if lines == [] then []
    else
      var last := lines[|lines| - 1];
      Warnings(lines[..|lines| - 1]) + if Classify(last).Warns() then [Strip(last)] else []
  }

  datatype Counter = Requests | Bytes

  function Count(s: ClientStats, k: Counter): int {
    match k
    case Requests => s.requests
    case Bytes => s.bytes
  }

  /** The sum of one counter over the listed clients. */
  function Total(clients: seq<string>, stats: map<string, ClientStats>, k: Counter): int
    requires forall c :: c in clients ==> c in stats
  {
    if clients == [] then 0 else Count(stats[clients[0]], k) + Total(clients[1..], stats, k)
  }

  /** The invariant the aggregator is meant to keep: each total is the sum of its
      counter over all clients. */
  ghost predicate Consistent(a: Aggregate) {
    && WellFormed(a)
    && a.totalRequests == Total(a.clients, a.stats, Requests)
    && a.totalBytes == Total(a.clients, a.stats, Bytes)
  }

  /* ---------------------------------------------------------------------------
     Sums over the clients
     ------------------------------------------------------------------------- */

  lemma {:induction false} TotalAppend(clients: seq<string>, c: string, stats: map<string, ClientStats>, k: Counter)
    requires forall x :: x in clients ==> x in stats
    requires c in stats
    ensures Total(clients + [c], stats, k) == Total(clients, stats, k) + Count(stats[c], k)
    decreases |clients|
  {
    if clients != [] {
      assert (clients + [c])[1..] == clients[1..] + [c];
      TotalAppend(clients[1..], c, stats, k);
    } else {
      assert [] + [c] == [c];
    }
  }

  /** Replacing the entry of a client listed once changes the sum by the difference;
      replacing the entry of an unlisted client changes nothing. */
  lemma {:induction false} TotalUpdate(clients: seq<string>, stats: map<string, ClientStats>, c: string, v: ClientStats, k: Counter)
    requires forall x :: x in clients ==> x in stats
    requires forall i, j :: 0 <= i < j < |clients| ==> clients[i] != clients[j]
    ensures c in clients ==> Total(clients, stats[c := v], k) == Total(clients, stats, k) - Count(stats[c], k) + Count(v, k)
    ensures c !in clients ==> Total(clients, stats[c := v], k) == Total(clients, stats, k)
    decreases |clients|
  {
    if clients != [] {
      TotalUpdate(clients[1..], stats, c, v, k);
    }
  }

  /** Credit keeps the keys distinct and in step with the map. */
  lemma CreditWellFormed(a: Aggregate, client: string, requests: nat, bytes: int)
    requires WellFormed(a)
    ensures WellFormed(Credit(a, client, requests, bytes))
  {
    var b := Credit(a, client, requests, bytes);
    if client !in a.stats {
      assert b.clients == a.clients + [client];
      forall c
        ensures c in b.stats <==> c in b.clients
      {
        assert c in b.clients <==> c in a.clients || c == client;
      }
    }
  }

  /** Credit adds its amount to the sum of one counter over the clients. */
  lemma CreditSum(a: Aggregate, client: string, requests: nat, bytes: int, k: Counter)
    requires WellFormed(a)
    ensures var b := Credit(a, client, requests, bytes);
      && (forall c :: c in b.clients ==> c in b.stats)
      && Total(b.clients, b.stats, k) == Total(a.clients, a.stats, k) + Count(ClientStats(requests, bytes), k)
  {
    var b := Credit(a, client, requests, bytes);
    CreditWellFormed(a, client, requests, bytes);
    var entry := StatsOf(a, client);
    var v := ClientStats(entry.requests + requests, entry.bytes + bytes);
    assert b.stats == a.stats[client := v];
    assert Count(v, k) == Count(entry, k) + Count(ClientStats(requests, bytes), k);
    TotalUpdate(a.clients, a.stats, client, v, k);
    if client in a.stats {
      assert client in a.clients && b.clients == a.clients;
    } else {
      assert client !in a.clients && b.clients == a.clients + [client];
      TotalAppend(a.clients, client, b.stats, k);
    }
  }

  /** Credit keeps the aggregate well formed and adds its amounts to the client sums. */
  lemma CreditTotals(a: Aggregate, client: string, requests: nat, bytes: int)
    requires WellFormed(a)
    ensures WellFormed(Credit(a, client, requests, bytes))
    ensures Total(Credit(a, client, requests, bytes).clients, Credit(a, client, requests, bytes).stats, Requests)
         == Total(a.clients, a.stats, Requests) + requests
    ensures Total(Credit(a, client, requests, bytes).clients, Credit(a, client, requests, bytes).stats, Bytes)
         == Total(a.clients, a.stats, Bytes) + bytes
  {
    CreditWellFormed(a, client, requests, bytes);
    CreditSum(a, client, requests, bytes, Requests);
    CreditSum(a, client, requests, bytes, Bytes);
  }

  /** Counting the request first and the bytes afterwards, as lines 28 and 29 do,
      is the same as crediting both at once. */
  lemma CreditInTwoSteps(a: Aggregate, client: string, requests: nat, bytes: int)
    ensures Credit(Credit(a, client, requests, 0), client, 0, bytes) == Credit(a, client, requests, bytes)
  {
  }

  /* ---------------------------------------------------------------------------
     What one line does
     ------------------------------------------------------------------------- */

  /** A whitespace-only line changes nothing and prints no warning. */
  lemma BlankLineIgnored(a: Aggregate, line: string)
    requires Strip(line) == []
    ensures Step(a, line) == a && !Classify(line).Warns()
  {
  }

  /** A line that does not have exactly three ';' separators fails the four-way
      unpacking: it changes nothing and prints a warning. */
  lemma WrongFieldCountIgnored(a: Aggregate, line: string)
    requires Strip(line) != [] && Occurrences(Strip(line), ';') != 3
    ensures Step(a, line) == a && Classify(line).Warns()
  {
  }

  /** A four-field line whose status is not OK in any letter case changes no
      counter and creates no entry, whatever its byte field holds. */
  lemma NonOkLineIgnored(a: Aggregate, line: string)
    requires |Fields(line)| == 4 && Fields(line)[2] !in {"OK", "Ok", "oK", "ok"}
    ensures Step(a, line) == a && !Classify(line).Warns()
  {
    UpperIsOk(Fields(line)[2]);
  }

  /** A line that splits into four fields is not blank. */
  lemma FourFieldsNotBlank(line: string)
    ensures Strip(line) == [] ==> Fields(line) == [[]]
  {
  }

  /** Crediting a client touches only that client's entry, adding it at the end of
      the key order when it is new, and leaves the totals alone. */
  lemma CreditEffect(a: Aggregate, client: string, requests: nat, bytes: int)
    ensures var b := Credit(a, client, requests, bytes);
      && b.stats.Keys == a.stats.Keys + {client}
      && b.stats[client] == ClientStats(StatsOf(a, client).requests + requests, StatsOf(a, client).bytes + bytes)
      && (forall c :: c in a.stats && c != client ==> b.stats[c] == a.stats[c])
      && b.clients == (if client in a.stats then a.clients else a.clients + [client])
      && b.totalRequests == a.totalRequests && b.totalBytes == a.totalBytes
  {
  }

  /** A four-field OK line with an integer byte field n adds one request and n bytes
      to its client (created at the end of the key order if new) and to the totals;
      every other client keeps its entry. */
  lemma AcceptedLineEffect(a: Aggregate, line: string, n: int)
    requires |Fields(line)| == 4 && Fields(line)[2] in {"OK", "Ok", "oK", "ok"}
    requires ParseInt(Fields(line)[1]) == Some(n)
    ensures var client, b := Fields(line)[3], Step(a, line);
      && !Classify(line).Warns()
      && b.stats.Keys == a.stats.Keys + {client}
      && b.stats[client] == ClientStats(StatsOf(a, client).requests + 1, StatsOf(a, client).bytes + n)
      && (forall c :: c in a.stats && c != client ==> b.stats[c] == a.stats[c])
      && b.clients == (if client in a.stats then a.clients else a.clients + [client])
      && b.totalRequests == a.totalRequests + 1
      && b.totalBytes == a.totalBytes + n
  {
    var client := Fields(line)[3];
    FourFieldsNotBlank(line);
    UpperIsOk(Fields(line)[2]);
    StepOfOkLine(a, line, client, Some(n));
    CreditEffect(a, client, 1, n);
  }

  /** A four-field OK line whose byte field int() rejects has already had its
      request counted when the error is raised: the client entry exists and gains
      one request, its bytes and both totals stay, and a warning is printed. */
  lemma BadBytesLineEffect(a: Aggregate, line: string)
    requires |Fields(line)| == 4 && Fields(line)[2] in {"OK", "Ok", "oK", "ok"}
    requires ParseInt(Fields(line)[1]) == None
    ensures var client, b := Fields(line)[3], Step(a, line);
      && Classify(line).Warns()
      && b.stats.Keys == a.stats.Keys + {client}
      && b.stats[client] == ClientStats(StatsOf(a, client).requests + 1, StatsOf(a, client).bytes)
      && (forall c :: c in a.stats && c != client ==> b.stats[c] == a.stats[c])
      && b.totalRequests == a.totalRequests
      && b.totalBytes == a.totalBytes
  {
    var client := Fields(line)[3];
    FourFieldsNotBlank(line);
    UpperIsOk(Fields(line)[2]);
    StepOfOkLine(a, line, client, None);
    CreditEffect(a, client, 1, 0);
  }

  /** An OK line with four fields: what its byte field parses to decides its
      effect and whether it warns. */
  lemma StepOfOkLine(a: Aggregate, line: string, client: string, bytes: Option<int>)
    requires Strip(line) != [] && |Fields(line)| == 4 && Upper(Fields(line)[2]) == "OK"
    requires client == Fields(line)[3] && bytes == ParseInt(Fields(line)[1])
    ensures Classify(line).Warns() <==> bytes.None?
    ensures bytes.None? ==> Step(a, line) == Credit(a, client, 1, 0)
    ensures bytes.Some? ==> Step(a, line) == Credit(a, client, 1, bytes.value).(
      totalRequests := a.totalRequests + 1, totalBytes := a.totalBytes + bytes.value)
  {
  }

  /* ---------------------------------------------------------------------------
     The totals invariant
     ------------------------------------------------------------------------- */

  /** Every line except an OK line with a bad byte field keeps the totals equal to
      the sums over the clients. */
  lemma StepKeepsConsistent(a: Aggregate, line: string)
    requires Consistent(a) && !Classify(line).BadBytes?
    ensures Consistent(Step(a, line))
  {
    match Classify(line)
    case Accepted(client, n) => CreditTotals(a, client, 1, n);
    case _ =>
  }

  /** An OK line with a bad byte field always breaks the invariant: the client's
      request was counted, the total was not. */
  lemma BadBytesBreaksConsistent(a: Aggregate, line: string)
    requires Consistent(a) && Classify(line).BadBytes?
    ensures WellFormed(Step(a, line)) && !Consistent(Step(a, line))
    ensures Step(a, line).totalRequests + 1 == Total(Step(a, line).clients, Step(a, line).stats, Requests)
  {
    CreditTotals(a, Classify(line).client, 1, 0);
  }

  /** A log without bad-byte OK lines keeps the invariant from start to end. */
  lemma {:induction false} RunKeepsConsistent(a: Aggregate, lines: seq<string>)
    requires Consistent(a)
    requires forall i :: 0 <= i < |lines| ==> !Classify(lines[i]).BadBytes?
    ensures Consistent(Run(a, lines))
    decreases |lines|
  {
    if lines != [] {
      var init := lines[..|lines| - 1];
      RunKeepsConsistent(a, init);
      StepKeepsConsistent(Run(a, init), lines[|lines| - 1]);
    }
  }

  /** Extending a prefix of the log by its next line is one more Step, and adds
      that line's warning, if any. */
  lemma RunPrefixStep(a: Aggregate, lines: seq<string>, i: nat)
    requires i < |lines|
    ensures Run(a, lines[..i + 1]) == Step(Run(a, lines[..i]), lines[i])
    ensures Warnings(lines[..i + 1]) == Warnings(lines[..i]) + if Classify(lines[i]).Warns() then [Strip(lines[i])] else []
  {
    assert lines[..i + 1][..i] == lines[..i];
  }

  /** The number of accepted lines, and the sum of their byte fields. */
  function AcceptedCount(lines: seq<string>): nat {
    if lines == [] then 0
    else AcceptedCount(lines[..|lines| - 1]) + if Classify(lines[|lines| - 1]).Accepted? then 1 else 0
  }

  function AcceptedBytes(lines: seq<string>): int {
    if lines == [] then 0
    else
      var k := Classify(lines[|lines| - 1]);
      AcceptedBytes(lines[..|lines| - 1]) + if k.Accepted? then k.bytes else 0
  }

  /** The totals grow by exactly the number of accepted lines and their bytes;
      no other line touches them. */
  lemma {:induction false} RunTotals(a: Aggregate, lines: seq<string>)
    ensures Run(a, lines).totalRequests == a.totalRequests + AcceptedCount(lines)
    ensures Run(a, lines).totalBytes == a.totalBytes + AcceptedBytes(lines)
    decreases |lines|
  {
    if lines != [] {
      RunTotals(a, lines[..|lines| - 1]);
    }
  }

  /** A log in which no line is an OK line leaves the state as it was. */
  lemma {:induction false} RunWithoutOkLines(a: Aggregate, lines: seq<string>)
    requires forall i :: 0 <= i < |lines| ==> !Classify(lines[i]).Accepted? && !Classify(lines[i]).BadBytes?
    ensures Run(a, lines) == a
    decreases |lines|
  {
    if lines != [] {
      RunWithoutOkLines(a, lines[..|lines| - 1]);
    }
  }
}
