/** The program's orchestration: load the lookup table, aggregate the flow
    log against it, and render the report. */
module Pipeline {
  import opened JavaString
  import opened Wrappers
  import opened LookupTable
  import opened FlowLogs
  import opened Report

  /** processFlowLogs: the aggregation loop, then the report writer. */
  method ProcessFlowLogs(lines: seq<string>, lookupMap: Table) returns (report: string)
    ensures var totals := Aggregated(lookupMap, lines);
      IsReport(report, totals.tagCounts, totals.untaggedCount, totals.portProtocolCounts)
  {
    var tagCounts, portProtocolCounts, untaggedCount := AggregateFlowLogs(lines, lookupMap);
    report := WriteOutputFile(tagCounts, portProtocolCounts, untaggedCount);
  }

  /** main: the lookup file's lines, then the flow log's lines, to the report. */
  method RunPipeline(lookupLines: seq<string>, flowLines: seq<string>) returns (report: string)
    ensures var totals := Aggregated(TableOf(lookupLines), flowLines);
      IsReport(report, totals.tagCounts, totals.untaggedCount, totals.portProtocolCounts)
  {
    var lookupMap := LoadLookupTable(lookupLines);
    report := ProcessFlowLogs(flowLines, lookupMap);
  }

  // ---------------------------------------------------------------------------
  // Loader and aggregator together

  /** For a loaded table, the "empty set" branch of the aggregator is taken
      exactly for keys the table does not hold. */
  lemma NoTagsMeansNoEntry(lookupLines: seq<string>, key: string)
    ensures TagsOf(TableOf(lookupLines), key) == {} <==> key !in TableOf(lookupLines)
  {
    if lookupLines != [] {
      LoadedSetsNonEmpty(lookupLines[1..]);
    }
  }

  /** The number of keys of `keys` that `table` does not hold. */
  function Missing(table: Table, keys: seq<string>): nat {
    if keys == [] then 0
    else Missing(table, keys[..|keys| - 1]) + (if keys[|keys| - 1] in table then 0 else 1)
  }

  lemma {:induction false} UnmatchedIsMissing(lookupLines: seq<string>, keys: seq<string>)
    ensures Unmatched(TableOf(lookupLines), keys) == Missing(TableOf(lookupLines), keys)
  {
    if keys != [] {
      UnmatchedIsMissing(lookupLines, keys[..|keys| - 1]);
      NoTagsMeansNoEntry(lookupLines, keys[|keys| - 1]);
    }
  }

  /** Against a loaded table, the untagged count is the number of records whose
      key the lookup file never mentioned in a well-formed row. */
  lemma UntaggedCountsMissingKeys(lookupLines: seq<string>, flowLines: seq<string>)
    ensures Aggregated(TableOf(lookupLines), flowLines).untaggedCount
        == Missing(TableOf(lookupLines), RecordKeys(flowLines))
  {
    UntaggedIsUnmatched(TableOf(lookupLines), flowLines);
    UnmatchedIsMissing(lookupLines, RecordKeys(flowLines));
  }

  /** Neither section of the report lists an entry whose count is 0. */
  lemma SectionsHoldNoZeroRow(lookup: Table, lines: seq<string>, key: string)
    ensures var totals := Aggregated(lookup, lines);
      Row(key, 0) !in RowSet(totals.tagCounts) && Row(key, 0) !in RowSet(totals.portProtocolCounts)
  {
    var totals := Aggregated(lookup, lines);
    CountsArePositive(lookup, lines);
    NoZeroRow(totals.tagCounts, key);
    NoZeroRow(totals.portProtocolCounts, key);
  }

  // ---------------------------------------------------------------------------
  // A worked scenario

  /** A lookup file: a header, then the rows `80,tcp,web`, `80,tcp,secure-web`
      and `22,tcp,ssh`. */
  function ScenarioLookupLines(header: string): seq<string> {
    [header, "80" + "," + "tcp" + "," + "web", "80" + "," + "tcp" + "," + "secure-web", "22" + "," + "tcp" + "," + "ssh"]
  }

  /** The table holding web and secure-web for 80/tcp and ssh for 22/tcp. */
  function ScenarioTable(): Table {
    var t1 := AddEntry(map[], Some(Entry(LookupKey("80", "tcp"), "web")));
    var t2 := AddEntry(t1, Some(Entry(LookupKey("80", "tcp"), "secure-web")));
    AddEntry(t2, Some(Entry(LookupKey("22", "tcp"), "ssh")))
  }

  /** The loader turns the scenario's lookup file into the scenario's table. */
  lemma ScenarioTableLoaded(header: string)
    ensures TableOf(ScenarioLookupLines(header)) == ScenarioTable()
  {
    var lines := ScenarioLookupLines(header);
    var empty: Table := map[];
    var t1 := AddEntry(empty, Some(Entry(LookupKey("80", "tcp"), "web")));
    var t2 := AddEntry(t1, Some(Entry(LookupKey("80", "tcp"), "secure-web")));
    WebRowAdded(empty);
    SecureWebRowAdded(t1);
    SshRowAdded(t2);
    LoadedThree(lines[1], lines[2], lines[3]);
    assert lines[1..] == [lines[1], lines[2], lines[3]];
  }

  // One lemma per scenario row: the three rows in one proof exceed the
  // solver's budget, because every function applied to literals unfolds.
  lemma WebRowAdded(table: Table)
    ensures AddRow(table, "80" + "," + "tcp" + "," + "web") == AddEntry(table, Some(Entry(LookupKey("80", "tcp"), "web")))
  {
    CleanRowAdded(table, "80", "tcp", "web");
  }

  lemma SecureWebRowAdded(table: Table)
    ensures AddRow(table, "80" + "," + "tcp" + "," + "secure-web")
         == AddEntry(table, Some(Entry(LookupKey("80", "tcp"), "secure-web")))
  {
    CleanRowAdded(table, "80", "tcp", "secure-web");
  }

  lemma SshRowAdded(table: Table)
    ensures AddRow(table, "22" + "," + "tcp" + "," + "ssh") == AddEntry(table, Some(Entry(LookupKey("22", "tcp"), "ssh")))
  {
    CleanRowAdded(table, "22", "tcp", "ssh");
  }

  /** The 14 fields of a flow-log record with `port` as field 5 and `protocol`
      as field 7. */
  function ScenarioFields(port: string, protocol: string): seq<string> {
    ["2", "123456789012", "eni-0a1b2c3d", "10.0.1.201", "198.51.100.2", port, "49153", protocol,
     "25", "20000", "1620140761", "1620140821", "ACCEPT", "OK"]
  }

  /** That record as a line, fields separated by single spaces. */
  function ScenarioRecord(port: string, protocol: string): string {
    JoinWith(ScenarioFields(port, protocol), ' ')
  }

  lemma ScenarioFieldsAreTokens(port: string, protocol: string)
    requires port != [] && NoSpace(port) && protocol != [] && NoSpace(protocol)
    ensures var fields := ScenarioFields(port, protocol);
      forall i :: 0 <= i < |fields| ==> fields[i] != [] && NoSpace(fields[i])
  {
    var fields := ScenarioFields(port, protocol);
    assert |fields| == 14;
    forall i | 0 <= i < |fields|
      ensures fields[i] != [] && NoSpace(fields[i])
    {
      if i < 5 {
        assert NoSpace(fields[i]);
      } else if 7 < i {
        assert NoSpace(fields[i]);
      }
    }
  }

  /** The record's key is its port and the name of its protocol. */
  lemma ScenarioRecordKey(port: string, protocol: string, key: string)
    requires port != [] && NoSpace(port) && !IsTrimmable(port[0]) && !IsTrimmable(port[|port| - 1])
    requires protocol != [] && NoSpace(protocol) && !IsTrimmable(protocol[0]) && !IsTrimmable(protocol[|protocol| - 1])
    requires key == LookupKey(port, ProtocolName(protocol))
    ensures FlowKey(ScenarioRecord(port, protocol)) == Some(key)
  {
    var fields := ScenarioFields(port, protocol);
    ScenarioFieldsAreTokens(port, protocol);
    FlowKeyOfTokens(fields);
    assert fields[DstPortField] == port && fields[ProtocolField] == protocol;
    TrimmedAlready(port);
    TrimmedAlready(protocol);
    ProtocolNameIsLowerCase(protocol);
  }

  /** The counts of one record keyed 80,tcp and one keyed 9999,udp: the first
      counts for both of its tags, the second is untagged, and each key counts
      once. */
  lemma ScenarioTotals()
    ensures var lookup := ScenarioTable();
      var after := CountRecord(CountRecord(NoTotals, lookup, "80,tcp"), lookup, "9999,udp");
      after == Totals(map["web" := 1, "secure-web" := 1], map["80,tcp" := 1, "9999,udp" := 1], 1)
  {
    var lookup := ScenarioTable();
    assert LookupKey("80", "tcp") == "80,tcp";
    assert LookupKey("22", "tcp") == "22,tcp";
    var empty: Table := map[];
    assert TagsOf(empty, "80,tcp") == {};
    var t1 := AddEntry(empty, Some(Entry("80,tcp", "web")));
    assert t1 == empty["80,tcp" := {} + {"web"}];
    assert t1["80,tcp"] == {"web"};
    var t2 := AddEntry(t1, Some(Entry("80,tcp", "secure-web")));
    assert t2 == t1["80,tcp" := {"web"} + {"secure-web"}];
    assert lookup == AddEntry(t2, Some(Entry("22,tcp", "ssh")));
    assert LookupKey("9999", "udp") == "9999,udp";
    assert "9999,udp" != "80,tcp" && "9999,udp" != "22,tcp";
    assert TagsOf(lookup, "80,tcp") == {"web", "secure-web"};
    assert TagsOf(lookup, "9999,udp") == {};
    var first := CountRecord(NoTotals, lookup, "80,tcp");
    assert first.tagCounts == map["web" := 1, "secure-web" := 1];
    assert first.portProtocolCounts == map["80,tcp" := 1];
  }

  /** Any two records keyed 80,tcp and 9999,udp, aggregated against the
      scenario's lookup file, give these counts. */
  lemma ScenarioAggregates(header: string, l1: string, l2: string)
    requires FlowKey(l1) == Some("80,tcp") && FlowKey(l2) == Some("9999,udp")
    ensures Aggregated(TableOf(ScenarioLookupLines(header)), [l1, l2])
         == Totals(map["web" := 1, "secure-web" := 1], map["80,tcp" := 1, "9999,udp" := 1], 1)
  {
    ScenarioTableLoaded(header);
    ScenarioTotals();
    TwoRecords(ScenarioTable(), l1, "80,tcp", l2, "9999,udp");
  }

  lemma WebRecordKey()
    ensures FlowKey(ScenarioRecord("80", "6")) == Some("80,tcp")
  {
    ScenarioRecordKey("80", "6", "80,tcp");
  }

  lemma UntaggedRecordKey()
    ensures FlowKey(ScenarioRecord("9999", "17")) == Some("9999,udp")
  {
    ScenarioRecordKey("9999", "17", "9999,udp");
  }

  /** The whole scenario from text: the lookup file above and two record lines,
      one to port 80 over protocol 6 and one to port 9999 over protocol 17. */
  lemma ScenarioEndToEnd(header: string)
    ensures Aggregated(TableOf(ScenarioLookupLines(header)), [ScenarioRecord("80", "6"), ScenarioRecord("9999", "17")])
         == Totals(map["web" := 1, "secure-web" := 1], map["80,tcp" := 1, "9999,udp" := 1], 1)
  {
    WebRecordKey();
    UntaggedRecordKey();
    ScenarioAggregates(header, ScenarioRecord("80", "6"), ScenarioRecord("9999", "17"));
  }
}
