# FlowLogParser in Dafny

A verified model of `FlowLogParser.java`, a small command-line tool. It reads a
lookup table of `dstport,protocol,tag` rows and a network flow log of
whitespace-separated records. It counts traffic per tag and per
"port,protocol" combination, and it counts the records whose key matches no
tag. Then it writes a two-section text report.

The model follows the program's three stages and its orchestration:

- `LookupTable` (`lookup_table.dfy`) is `loadLookupTable`.
  - It drops the header line.
  - It splits each row on `,`.
  - For every row with exactly three fields it adds `trim(tag)` to the set of
    the key `trim(port) + "," + lower(trim(protocol))`.
  - The method `LoadLookupTable` keeps the Java loop. It is proved equal to
    `TableOf`, a row-by-row fold, and the table's properties are proved about
    that fold.
- `FlowLogs` (`flow_logs.dfy`) is `getProtocolName` and the aggregation loop of
  `processFlowLogs`.
  - It splits each line on runs of whitespace and skips lines with fewer than
    13 fields.
  - It builds the key from field 5 and the protocol name of field 7.
  - It looks the key up without inserting.
  - It counts the line as untagged, or once per tag of the key.
  - It always counts the key.
  - The methods `AggregateFlowLogs`, `CountFlowRecord` and `CountTags` keep the
    outer loop, its body and the inner loop over tags. They are proved against
    `Aggregated`, a line-by-line fold.
- `Report` (`report.dfy`) is `writeOutputFile`. It produces the report text for
  whatever order the two maps are walked in.
  - `IsReport` says the text is the fixed layout for some enumeration of each
    map's keys.
  - The lemmas show that each section holds exactly one row per map entry,
    that a row reads back as its key and count, and that any two reports of the
    same counts are rearrangements of each other's rows.
- `Pipeline` (`pipeline.dfy`) does what `main` and the end of `processFlowLogs`
  do. It loads the table, aggregates the log and writes the report.
- `JavaString` (`java_string.dfy`) models the Java library behaviour the program
  relies on:
  - `String.split(",")` and `String.split("\\s+")`, including when a delimiter
    is absent and the dropping of trailing empty strings;
  - `trim`, ASCII `toLowerCase`, `replace` of one character by another, and
    `Integer.toString` of a count.
- `Wrappers` holds `Option`.

The input files are passed as sequences of lines, and the report is returned as
a string. Counts are unbounded naturals. HashMap and HashSet iteration is an
arbitrary choice (`:|`), so every property holds for every iteration order.

`split("\\s+")` gives a line that starts with whitespace an empty field 0.
On such a line, fields 5 and 7 are tokens 4 and 6 of the line without its
indentation, and 12 tokens already pass the 13-field test. The model keeps
this behaviour as the code has it (`FlowLogs.IndentedLineKey`).

`Pipeline` also works one scenario through from text. The lookup file has the
rows `80,tcp,web`, `80,tcp,secure-web` and `22,tcp,ssh`. The flow log has one
record to port 80 over protocol 6 and one to port 9999 over protocol 17.

## Model

| member | source | states |
|---|---|---|
| JavaString.TrimSpec | src/main/java/org/example/FlowLogParser.java:30-31 | `trim` returns a contiguous slice of its input. Everything it removes from either end is at most U+0020, and the result neither starts nor ends with such a character. |
| JavaString.TrimIdempotent | src/main/java/org/example/FlowLogParser.java:52-53 | A property of the `trim` model itself: trimming twice gives the same as trimming once. The source trims each field only once. |
| JavaString.ToLowerIdempotent | src/main/java/org/example/FlowLogParser.java:30 | A property of the `toLowerCase` model itself: lower-casing twice gives the same as lower-casing once. The source lower-cases each protocol only once. |
| JavaString.PiecesJoin | src/main/java/org/example/FlowLogParser.java:28 | Rejoining the comma pieces of a row with commas gives the row back. |
| JavaString.PiecesHaveNoDelimiter | src/main/java/org/example/FlowLogParser.java:28 | No comma piece contains a comma. |
| JavaString.PiecesCount | src/main/java/org/example/FlowLogParser.java:28 | A row with n commas has n+1 pieces before trailing empty ones are dropped. |
| JavaString.DropTrailingEmptySpec | src/main/java/org/example/FlowLogParser.java:28-29 | `split` keeps a prefix of the pieces. Every piece it drops is empty, and what it keeps does not end in an empty piece. |
| JavaString.TrailingCommaDropped | src/main/java/org/example/FlowLogParser.java:28-29 | `"80,tcp,"` splits into two fields, not three. |
| JavaString.SplitThree | src/main/java/org/example/FlowLogParser.java:28-29 | `a,b,c` with no comma inside a field and a non-empty last field splits on `,` into exactly `[a, b, c]`. |
| JavaString.TrimmedAlready | src/main/java/org/example/FlowLogParser.java:30-31 | `trim` leaves a field unchanged when it neither starts nor ends with a character at most U+0020. |
| JavaString.SpacePiecesShape | src/main/java/org/example/FlowLogParser.java:49 | No whitespace field contains a `\s` character, and every field except the first and the last is non-empty. |
| JavaString.SpaceRunsAreSpaces | src/main/java/org/example/FlowLogParser.java:49 | Every separator between fields is a non-empty run of `\s` characters. |
| JavaString.SpacePiecesWeave | src/main/java/org/example/FlowLogParser.java:49 | The fields, interleaved with the runs between them, rebuild the line. |
| JavaString.LeadingSpaceGivesEmptyField | src/main/java/org/example/FlowLogParser.java:49-53 | A line that starts with whitespace, and is not all whitespace, splits into an empty field 0 followed by the fields of the line without its indentation. So `parts[5]` and `parts[7]` hold that line's tokens 4 and 6, one token earlier than on an unindented line. |
| JavaString.SpacePiecesOfJoin | src/main/java/org/example/FlowLogParser.java:49 | Tokens without `\s` characters, joined by single spaces, are exactly the pieces of the joined line. |
| JavaString.SplitWhitespaceOfJoin | src/main/java/org/example/FlowLogParser.java:49 | `split("\\s+")` of non-empty tokens without `\s` characters, joined by single spaces, gives back exactly those tokens. |
| JavaString.ReplaceSameChar | src/main/java/org/example/FlowLogParser.java:94 | `replace(",", ",")` is the identity. |
| JavaString.NatToString | src/main/java/org/example/FlowLogParser.java:87-89 | The decimal text of a count is non-empty and all digits. It has no leading zero and no comma. |
| JavaString.ParseNatToString | src/main/java/org/example/FlowLogParser.java:87-89 | Reading the decimal text of a count gives the count back. |
| LookupTable.LoadLookupTable | src/main/java/org/example/FlowLogParser.java:22-39 | The loader loop returns exactly `TableOf(lines)`: the header is skipped and every later row is folded in, in order. |
| LookupTable.LoadRow | src/main/java/org/example/FlowLogParser.java:28-35 | One row's split, field-count test, `putIfAbsent` and `add` have exactly the effect `AddRow` describes. |
| LookupTable.AddEntryContents | src/main/java/org/example/FlowLogParser.java:33-34 | After one row, a key holds a tag exactly when it held it before or the row is that key and tag. |
| LookupTable.AddEntryKeys | src/main/java/org/example/FlowLogParser.java:33 | After one row, a key is present exactly when it was before or the row is for that key. |
| LookupTable.MalformedRowIgnored | src/main/java/org/example/FlowLogParser.java:28-29 | A row that does not split into exactly three fields leaves the table unchanged. |
| LookupTable.TrailingCommaRowIgnored | src/main/java/org/example/FlowLogParser.java:28-29 | The row `80,tcp,` leaves the table unchanged. |
| LookupTable.ParseThreeFields | src/main/java/org/example/FlowLogParser.java:28-31 | A row of three comma-free fields, the last non-empty, parses to the key `trim(port) + "," + lower(trim(protocol))` with the tag `trim(tag)`. |
| LookupTable.CleanRowAdded | src/main/java/org/example/FlowLogParser.java:28-34 | A row whose fields are already trimmed, with a protocol already in lower case, adds exactly the tag to the key `port + "," + protocol`. |
| LookupTable.LoadedThree | src/main/java/org/example/FlowLogParser.java:27-35 | Three rows are folded into the table in file order. |
| LookupTable.RowAddsTag | src/main/java/org/example/FlowLogParser.java:30-34 | A well-formed row adds its tag to its key's set, creating the set when absent, and changes no other key. |
| LookupTable.DuplicateRowIgnored | src/main/java/org/example/FlowLogParser.java:33-34 | A row whose tag is already recorded for its key changes nothing. |
| LookupTable.RowOnlyGrows | src/main/java/org/example/FlowLogParser.java:33-34 | One row never removes a key or a tag. |
| LookupTable.LoadedGrows | src/main/java/org/example/FlowLogParser.java:27-36 | The table after more rows extends the table after fewer. |
| LookupTable.LoadedContents | src/main/java/org/example/FlowLogParser.java:27-35 | A key holds a tag exactly when some row parses to that key and tag. |
| LookupTable.LoadedKeys | src/main/java/org/example/FlowLogParser.java:27-35 | A key is present exactly when some row parses to that key. |
| LookupTable.WellFormedRowRecorded | src/main/java/org/example/FlowLogParser.java:26-35 | Every row after the header with exactly three fields leaves `trim(p2)` in the set of `trim(p0) + "," + lower(trim(p1))`. |
| LookupTable.LoadedSetsNonEmpty | src/main/java/org/example/FlowLogParser.java:33-34 | The loader never stores an empty tag set. |
| LookupTable.HeaderIgnored | src/main/java/org/example/FlowLogParser.java:26 | The first line is discarded unread: files differing only in it give the same table. |
| LookupTable.SameRowsSameContents | src/main/java/org/example/FlowLogParser.java:27-35 | Two row lists with the same members give every key the same tags. |
| LookupTable.LoadedOrderIrrelevant | src/main/java/org/example/FlowLogParser.java:27-35 | The table depends only on which rows occur, not on their order or repetition. |
| FlowLogs.ProtocolName | src/main/java/org/example/FlowLogParser.java:72-79 | The name is "tcp" iff the number is "6", "udp" iff "17", "icmp" iff "1", and "unknown" iff it is none of these. |
| FlowLogs.ProtocolNameIsLowerCase | src/main/java/org/example/FlowLogParser.java:53 | The `toLowerCase` applied to a protocol name changes nothing. |
| FlowLogs.AggregateFlowLogs | src/main/java/org/example/FlowLogParser.java:42-67 | The aggregation loop returns exactly `Aggregated(lookupMap, lines)`, the line-by-line fold of the counts. |
| FlowLogs.CountFlowRecord | src/main/java/org/example/FlowLogParser.java:56-65 | One record's `getOrDefault` lookup, untagged or per-tag counting and key count have exactly the effect `CountRecord` describes. |
| FlowLogs.CountTags | src/main/java/org/example/FlowLogParser.java:60-62 | The loop over a record's tags, in any order, counts each tag of the set once more and no other tag. |
| FlowLogs.TotalBump | src/main/java/org/example/FlowLogParser.java:65 | One `put(k, getOrDefault(k, 0) + 1)` adds one to the sum of the counts. |
| FlowLogs.TotalBumpAll | src/main/java/org/example/FlowLogParser.java:60-62 | Counting K distinct tags adds K to the sum of the tag counts. |
| FlowLogs.ShortLineIgnored | src/main/java/org/example/FlowLogParser.java:49-50 | A line with fewer than 13 whitespace fields leaves all three aggregates unchanged. |
| FlowLogs.IndentedLineKey | src/main/java/org/example/FlowLogParser.java:49-54 | An indented line is a record when its unindented text has at least 12 tokens. Its key is built from that text's tokens 4 and 6. |
| FlowLogs.FlowKeyOfTokens | src/main/java/org/example/FlowLogParser.java:49-54 | A line of at least 13 non-empty tokens without `\s` characters, separated by single spaces, is a record. Its key is `trim(token 5)` and the lower-cased protocol name of `trim(token 7)`. |
| FlowLogs.UntaggedRecord | src/main/java/org/example/FlowLogParser.java:56-65 | A record whose key is absent or has no tags adds exactly one to `untaggedCount`, leaves `tagCounts` unchanged, adds one to its own key's count and leaves other keys' counts unchanged. |
| FlowLogs.TaggedRecord | src/main/java/org/example/FlowLogParser.java:56-65 | A record whose key has K tags adds one to each of those tags' counts and changes no other tag's count. The tag total rises by K, `untaggedCount` is unchanged, and only its own key's count rises, by one. |
| FlowLogs.RecordCountedOnce | src/main/java/org/example/FlowLogParser.java:54-65 | Whatever its tags, a record adds exactly one to the sum of the port/protocol counts. |
| FlowLogs.TwoRecords | src/main/java/org/example/FlowLogParser.java:48-65 | Two records are counted one after the other, in file order. |
| FlowLogs.RecordKeysCount | src/main/java/org/example/FlowLogParser.java:49-54 | There is one record key per line with at least 13 fields. |
| FlowLogs.PortProtocolCountsAreOccurrences | src/main/java/org/example/FlowLogParser.java:48-66 | A key's count is the number of records with that key. The counted keys are exactly the record keys. |
| FlowLogs.PortProtocolTotalIsRecordCount | src/main/java/org/example/FlowLogParser.java:48-66 | The port/protocol counts sum to the number of lines with at least 13 fields. |
| FlowLogs.TagCountsAreMatches | src/main/java/org/example/FlowLogParser.java:48-66 | A tag's count is the number of records whose key carries that tag. A tag is a key of `tagCounts` exactly when at least one record's key carries it. |
| FlowLogs.CountsArePositive | src/main/java/org/example/FlowLogParser.java:58-65 | Every tag and every port/protocol key in the counts has a count of at least one, because an entry is created only by an increment. |
| FlowLogs.TagTotalIsTagIncrements | src/main/java/org/example/FlowLogParser.java:48-66 | The tag counts sum to the total size of the records' tag sets. |
| FlowLogs.UntaggedIsUnmatched | src/main/java/org/example/FlowLogParser.java:48-66 | `untaggedCount` is the number of records whose key has no tag. |
| Report.WriteOutputFile | src/main/java/org/example/FlowLogParser.java:81-96 | The written text is a report of the three aggregates: the fixed headers, one row per tag-count entry, the untagged row, the second section's headers and one row per port/protocol entry, each map walked in some order. |
| Report.WriteTagRows | src/main/java/org/example/FlowLogParser.java:86-88 | The first entry loop appends `tag,count` rows for an enumeration of every tag exactly once. |
| Report.WritePortRows | src/main/java/org/example/FlowLogParser.java:93-95 | The second entry loop appends `key,count` rows, key passed through `replace`, for an enumeration of every key exactly once. |
| Report.EnumerationIsExact | src/main/java/org/example/FlowLogParser.java:86 | An enumeration of a map's keys has one element per key, lists exactly the keys and repeats none. |
| Report.RowRoundTrip | src/main/java/org/example/FlowLogParser.java:87 | Splitting a row at its last comma and reading the digits gives back its key and count, whatever the key contains. |
| Report.RowInjective | src/main/java/org/example/FlowLogParser.java:87 | Different entries produce different rows. |
| Report.PortRowsArePlainRows | src/main/java/org/example/FlowLogParser.java:94 | The port/protocol rows are the plain `key,count` rows: the `replace` call changes nothing. |
| Report.RowsOfDistinctKeys | src/main/java/org/example/FlowLogParser.java:86-88 | The rows for distinct keys are the rows of exactly those keys, each once. |
| Report.SectionRowsAreEntries | src/main/java/org/example/FlowLogParser.java:86-95 | Each section holds one row per entry of its map and nothing else, as a multiset of rows. |
| Report.NoZeroRow | src/main/java/org/example/FlowLogParser.java:86-95 | A map whose counts are all positive yields no row `k,0`, for any key `k`. |
| Report.RowsOrderIndependent | src/main/java/org/example/FlowLogParser.java:86-88 | Two walks of the same map give the same rows, perhaps in another order. |
| Report.ReportShape | src/main/java/org/example/FlowLogParser.java:84-95 | A report starts with "Tag Counts:\nTag,Count\n" and is the fixed layout whose two row sections are exactly the entries of their maps. |
| Report.ReportsHaveSameLength | src/main/java/org/example/FlowLogParser.java:84-95 | Any two reports of the same aggregates have the same length. |
| Pipeline.ProcessFlowLogs | src/main/java/org/example/FlowLogParser.java:41-70 | Processing a log against a table writes a report of `Aggregated(lookupMap, lines)`. |
| Pipeline.RunPipeline | src/main/java/org/example/FlowLogParser.java:14-16 | The whole run writes a report of the aggregates of the flow lines against the table loaded from the lookup lines. |
| Pipeline.NoTagsMeansNoEntry | src/main/java/org/example/FlowLogParser.java:56-57 | For a loaded table, the empty-set branch is taken exactly for keys the table lacks. |
| Pipeline.UnmatchedIsMissing | src/main/java/org/example/FlowLogParser.java:56-58 | Against a loaded table, the keys with no tags are exactly the keys the table lacks. |
| Pipeline.UntaggedCountsMissingKeys | src/main/java/org/example/FlowLogParser.java:56-58 | Against a loaded table, `untaggedCount` is the number of records whose key no well-formed lookup row produced. |
| Pipeline.SectionsHoldNoZeroRow | src/main/java/org/example/FlowLogParser.java:84-95 | Neither section lists an entry whose count is 0. The `Untagged` line (line 89) is written even when its count is 0. |
| Pipeline.ScenarioTableLoaded | src/main/java/org/example/FlowLogParser.java:22-39 | The lookup text of a header and the rows `80,tcp,web`, `80,tcp,secure-web` and `22,tcp,ssh` loads to the table that maps "80,tcp" to {web, secure-web} and "22,tcp" to {ssh}. |
| Pipeline.ScenarioRecordKey | src/main/java/org/example/FlowLogParser.java:49-54 | A 14-field record line with a trimmed port as field 5 and a trimmed protocol number as field 7 has the key `port + "," + name(protocol)`. |
| Pipeline.ScenarioTotals | src/main/java/org/example/FlowLogParser.java:56-65 | Counting the keys "80,tcp" and then "9999,udp" against that table gives tag counts {web:1, secure-web:1}, untagged 1 and key counts {"80,tcp":1, "9999,udp":1}. |
| Pipeline.ScenarioAggregates | src/main/java/org/example/FlowLogParser.java:22-66 | Any two lines keyed "80,tcp" and "9999,udp", aggregated against the table loaded from the scenario's lookup text, give those counts. |
| Pipeline.ScenarioEndToEnd | src/main/java/org/example/FlowLogParser.java:22-66 | From text to counts: the scenario's lookup text and two record lines, to port 80 over protocol 6 and to port 9999 over protocol 17, give tag counts {web:1, secure-web:1}, untagged 1 and key counts {"80,tcp":1, "9999,udp":1}. |

## Left out

- File I/O is not modelled. This covers `BufferedReader`/`FileReader`/`FileWriter`, try-with-resources and the fixed file names in `main` (lines 10-12, 24, 46, 83). Inputs are sequences of lines and the report is a returned string. How `readLine` breaks a file into lines is not modelled.
- `IOException` handling and the `System.err`/`System.out` messages (lines 17-19 and 97) are left out. They are side effects with no logic.
- HashMap/HashSet iteration order is not fixed. Every walk over a map or set is an arbitrary choice, and the report is stated for every enumeration.
- FlowLogs.AggregateFlowLogs: does not model the 32-bit wrap-around of Java's `int`/`Integer` counts. Counts are unbounded naturals, and a count past 2^31 - 1 would wrap in the source.
- FlowLogs.CountFlowRecord: same as AggregateFlowLogs; `untaggedCount++` and the port/protocol count are unbounded naturals here.
- FlowLogs.CountTags: same as AggregateFlowLogs; the per-tag `getOrDefault(tag, 0) + 1` does not wrap.
- Report.WriteOutputFile: renders counts that are naturals. It never prints the negative values that a wrapped Java `int` could produce.
- JavaString.ToLowerIdempotent: `toLowerCase` is modelled over ASCII only (`A`-`Z` to `a`-`z`). Unicode and locale-specific case mappings are left out.
- The shared default set passed to `getOrDefault` (line 56) is modelled as an absent key giving the empty set. Object identity and aliasing are not modelled.
- The aggregator cannot change the lookup table, because the table is a value here. The source gets the same guarantee from the fact that `getOrDefault` never inserts.
