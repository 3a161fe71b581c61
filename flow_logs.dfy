/** The flow-log aggregator: every record with at least 13 whitespace-separated
    fields is classified by its "port,protocol" key through the lookup table,
    and three aggregates are accumulated: a count per tag, a count per key and
    the number of records whose key has no tag. */
module FlowLogs {
  import opened Wrappers
  import opened JavaString
  import opened LookupTable

  /** A record has at least this many fields; shorter lines are skipped. */
  const MinFields: nat := 13
  /** Field holding the destination port. */
  const DstPortField: nat := 5
  /** Field holding the IANA protocol number. */
  const ProtocolField: nat := 7

  /** getProtocolName: the fixed IANA protocol-number table. */
  function ProtocolName(protocolNumber: string): (name: string)
    ensures name == "tcp" <==> protocolNumber == "6"
    ensures name == "udp" <==> protocolNumber == "17"
    ensures name == "icmp" <==> protocolNumber == "1"
    ensures name == "unknown" <==> protocolNumber !in {"6", "17", "1"}
  {
    if protocolNumber == "6" then "tcp"
    else if protocolNumber == "17" then "udp"
    else if protocolNumber == "1" then "icmp"
    else "unknown"
  }

  /** Every protocol name is already lower case, so the `toLowerCase` applied
      to it changes nothing. */
  lemma ProtocolNameIsLowerCase(protocolNumber: string)
    ensures ToLower(ProtocolName(protocolNumber)) == ProtocolName(protocolNumber)
  {
    var name := ProtocolName(protocolNumber);
    assert forall i :: 0 <= i < |name| ==> !IsUpper(name[i]);
    ToLowerFixes(name);
  }

  /** The "port,protocol" key of a record, or None for a line with fewer than
      13 fields. */
  function FlowKey(line: string): Option<string> {
    var parts := SplitWhitespace(line);
    if |parts| < MinFields then None
    else Some(LookupKey(Trim(parts[DstPortField]), ToLower(ProtocolName(Trim(parts[ProtocolField])))))
  }

  /** An indented line is split with an empty field 0, so fields 5 and 7 are
      tokens 4 and 6 of the line without its indentation, and 12 tokens are
      enough to make it a record. */
  lemma IndentedLineKey(line: string)
    requires line != [] && IsSpace(line[0]) && !AllSpace(line)
    ensures var tokens := SplitWhitespace(line[RunLength(line)..]);
      FlowKey(line) == if |tokens| < MinFields - 1 then None
        else Some(LookupKey(Trim(tokens[DstPortField - 1]), ToLower(ProtocolName(Trim(tokens[ProtocolField - 1])))))
  {
    LeadingSpaceGivesEmptyField(line);
  }

  /** The key of a record written as tokens separated by single spaces. */
  lemma FlowKeyOfTokens(tokens: seq<string>)
    requires |tokens| >= MinFields
    requires forall i :: 0 <= i < |tokens| ==> tokens[i] != [] && NoSpace(tokens[i])
    ensures FlowKey(JoinWith(tokens, ' '))
         == Some(LookupKey(Trim(tokens[DstPortField]), ToLower(ProtocolName(Trim(tokens[ProtocolField])))))
  {
    SplitWhitespaceOfJoin(tokens);
  }

  // ---------------------------------------------------------------------------
  // Aggregates

  type Counter = map<string, nat>

  /** tagCounts, portProtocolCounts and untaggedCount. */
  datatype Totals = Totals(tagCounts: Counter, portProtocolCounts: Counter, untaggedCount: nat)

  const NoTotals := Totals(map[], map[], 0)

  /** getOrDefault(k, 0). */
  function CountOf(m: Counter, k: string): nat {
    if k in m then m[k] else 0
  }

  /** put(k, getOrDefault(k, 0) + 1). */
  function Bump(m: Counter, k: string): Counter {
    m[k := CountOf(m, k) + 1]
  }

  /** `m` with each of `tags` counted once more. */
  function BumpAll(m: Counter, tags: set<string>): Counter {
    map k | k in m.Keys + tags :: CountOf(m, k) + (if k in tags then 1 else 0)
  }

  /** The effect of a record with key `key` (a line with at least 13 fields). */
  function CountRecord(totals: Totals, lookup: Table, key: string): Totals {
    var tags := TagsOf(lookup, key);
    Totals(
      if tags == {} then totals.tagCounts else BumpAll(totals.tagCounts, tags),
      Bump(totals.portProtocolCounts, key),
      if tags == {} then totals.untaggedCount + 1 else totals.untaggedCount)
  }

  function CountKey(totals: Totals, lookup: Table, key: Option<string>): Totals {
    match key
    case None => totals
    case Some(k) => CountRecord(totals, lookup, k)
  }

  /** The effect of one line of the flow log. */
  function Step(totals: Totals, lookup: Table, line: string): Totals {
    CountKey(totals, lookup, FlowKey(line))
  }

  /** The aggregates after the lines of `lines`, in order. */
  function Aggregated(lookup: Table, lines: seq<string>): Totals {
    if lines == [] then NoTotals
    else Step(Aggregated(lookup, lines[..|lines| - 1]), lookup, lines[|lines| - 1])
  }

  /** The aggregation loop of processFlowLogs. */
  method AggregateFlowLogs(lines: seq<string>, lookupMap: Table)
    returns (tagCounts: Counter, portProtocolCounts: Counter, untaggedCount: nat)
    ensures Totals(tagCounts, portProtocolCounts, untaggedCount) == Aggregated(lookupMap, lines)
  {
    tagCounts, portProtocolCounts, untaggedCount := map[], map[], 0;
    var n := 0;
    while n < |lines|
      invariant n <= |lines|
      invariant Totals(tagCounts, portProtocolCounts, untaggedCount) == Aggregated(lookupMap, lines[..n])
    {
      var line := lines[n];
      assert lines[..n + 1][..n] == lines[..n];
      var parts := SplitWhitespace(line);
      if |parts| >= 13 {
        var dstPort := Trim(parts[5]);
        var protocol := ToLower(ProtocolName(Trim(parts[7])));
        var key := dstPort + "," + protocol;
        assert FlowKey(line) == Some(key);
        tagCounts, portProtocolCounts, untaggedCount := CountFlowRecord(tagCounts, portProtocolCounts, untaggedCount, lookupMap, key);
      } else {
        assert FlowKey(line) == None;
      }
      n := n + 1;
    }
    assert lines[..n] == lines;
  }

  /** One record's updates: the getOrDefault lookup, the untagged or per-tag
      counts, and the port/protocol count. */
  method CountFlowRecord(tagCounts: Counter, portProtocolCounts: Counter, untaggedCount: nat, lookupMap: Table, key: string)
    returns (tagCounts': Counter, portProtocolCounts': Counter, untaggedCount': nat)
    ensures Totals(tagCounts', portProtocolCounts', untaggedCount')
         == CountRecord(Totals(tagCounts, portProtocolCounts, untaggedCount), lookupMap, key)
  {
    tagCounts', portProtocolCounts', untaggedCount' := tagCounts, portProtocolCounts, untaggedCount;
    var tags := if key in lookupMap then lookupMap[key] else {};
    if tags == {} {
      untaggedCount' := untaggedCount' + 1;
    } else {
      tagCounts' := CountTags(tagCounts', tags);
    }
    portProtocolCounts' := portProtocolCounts'[key := (if key in portProtocolCounts' then portProtocolCounts'[key] else 0) + 1];
  }

  /** The inner loop of processFlowLogs: each tag of the record's set, in
      whatever order the set is walked, has its count raised by one. */
  method CountTags(tagCounts: Counter, tags: set<string>) returns (counts: Counter)
    ensures counts == BumpAll(tagCounts, tags)
  {
    counts := tagCounts;
    BumpNone(tagCounts);
    var remaining := tags;
    while remaining != {}
      invariant remaining <= tags
      invariant counts == BumpAll(tagCounts, tags - remaining)
      decreases remaining
    {
      var tag :| tag in remaining;
      ghost var done := tags - remaining;
      BumpOneMore(tagCounts, done, tag);
      counts := counts[tag := (if tag in counts then counts[tag] else 0) + 1];
      remaining := remaining - {tag};
      assert tags - remaining == done + {tag};
    }
    assert tags - {} == tags;
  }

  lemma BumpNone(m: Counter)
    ensures BumpAll(m, {}) == m
  {
  }

  /** Counting one more tag is one more increment of that tag. */
  lemma BumpOneMore(m: Counter, done: set<string>, tag: string)
    requires tag !in done
    ensures BumpAll(m, done + {tag}) == Bump(BumpAll(m, done), tag)
  {
  }

  // ---------------------------------------------------------------------------
  // Sums of counters

  /** The sum of the values of a counter. */
  ghost function Total(m: Counter): nat
    decreases |m|
  {
    if m == map[] then 0
    else
      var k :| k in m;
      m[k] + Total(m - {k})
  }

  /** The sum can be taken by removing any key first. */
  lemma {:induction false} TotalRemove(m: Counter, k: string)
    requires k in m
    ensures Total(m) == m[k] + Total(m - {k})
    decreases |m|
  {
    var j :| j in m && Total(m) == m[j] + Total(m - {j});
    if j != k {
      assert (m - {j}) - {k} == (m - {k}) - {j};
      TotalRemove(m - {j}, k);
      TotalRemove(m - {k}, j);
    }
  }

  /** One increment adds one to the sum. */
  lemma TotalBump(m: Counter, k: string)
    ensures Total(Bump(m, k)) == Total(m) + 1
  {
    var b := Bump(m, k);
    TotalRemove(b, k);
    if k in m {
      TotalRemove(m, k);
      assert b - {k} == m - {k};
    } else {
      assert b - {k} == m;
    }
  }

  /** Counting each of `tags` once adds |tags| to the sum. */
  lemma {:induction false} TotalBumpAll(m: Counter, tags: set<string>)
    ensures Total(BumpAll(m, tags)) == Total(m) + |tags|
    decreases |tags|
  {
    if tags == {} {
      BumpNone(m);
    } else {
      var t :| t in tags;
      var rest := tags - {t};
      assert tags == rest + {t};
      BumpOneMore(m, rest, t);
      TotalBumpAll(m, rest);
      TotalBump(BumpAll(m, rest), t);
    }
  }

  // ---------------------------------------------------------------------------
  // One line

  /** A line with fewer than 13 fields changes none of the aggregates. */
  lemma ShortLineIgnored(totals: Totals, lookup: Table, line: string)
    requires |SplitWhitespace(line)| < MinFields
    ensures Step(totals, lookup, line) == totals
  {
  }

  /** A record whose key has no tags counts as untagged once, leaves the tag
      counts alone and counts its key once. */
  lemma UntaggedRecord(totals: Totals, lookup: Table, key: string)
    requires TagsOf(lookup, key) == {}
    ensures var after := CountRecord(totals, lookup, key);
      && after.untaggedCount == totals.untaggedCount + 1
      && after.tagCounts == totals.tagCounts
      && CountOf(after.portProtocolCounts, key) == CountOf(totals.portProtocolCounts, key) + 1
      && (forall k :: k != key ==> CountOf(after.portProtocolCounts, k) == CountOf(totals.portProtocolCounts, k))
  {
  }

  /** A record whose key has K tags counts each of them once, no other tag,
      K increments in all, leaves the untagged count alone and counts its key
      once. */
  lemma TaggedRecord(totals: Totals, lookup: Table, key: string)
    requires TagsOf(lookup, key) != {}
    ensures var after := CountRecord(totals, lookup, key);
      var tags := TagsOf(lookup, key);
      && after.untaggedCount == totals.untaggedCount
      && (forall t :: t in tags ==> CountOf(after.tagCounts, t) == CountOf(totals.tagCounts, t) + 1)
      && (forall t :: t !in tags ==> CountOf(after.tagCounts, t) == CountOf(totals.tagCounts, t))
      && Total(after.tagCounts) == Total(totals.tagCounts) + |tags|
      && CountOf(after.portProtocolCounts, key) == CountOf(totals.portProtocolCounts, key) + 1
      && (forall k :: k != key ==> CountOf(after.portProtocolCounts, k) == CountOf(totals.portProtocolCounts, k))
  {
    TotalBumpAll(totals.tagCounts, TagsOf(lookup, key));
  }

  /** Whatever its tags, a record adds exactly one to the port/protocol counts. */
  lemma RecordCountedOnce(totals: Totals, lookup: Table, key: string)
    ensures Total(CountRecord(totals, lookup, key).portProtocolCounts) == Total(totals.portProtocolCounts) + 1
  {
    TotalBump(totals.portProtocolCounts, key);
  }

  // ---------------------------------------------------------------------------
  // The whole log

  /** Two records, in order, count their keys one after the other. */
  lemma TwoRecords(lookup: Table, l1: string, k1: string, l2: string, k2: string)
    requires FlowKey(l1) == Some(k1) && FlowKey(l2) == Some(k2)
    ensures Aggregated(lookup, [l1, l2]) == CountRecord(CountRecord(NoTotals, lookup, k1), lookup, k2)
  {
    assert [l1][..0] == [];
    assert Aggregated(lookup, [l1]) == Step(NoTotals, lookup, l1);
    assert [l1, l2][..1] == [l1];
    assert Aggregated(lookup, [l1, l2]) == Step(Aggregated(lookup, [l1]), lookup, l2);
  }

  /** The keys of the lines that are records, in order. */
  function RecordKeys(lines: seq<string>): seq<string> {
    if lines == [] then []
    else
      var init := RecordKeys(lines[..|lines| - 1]);
      match FlowKey(lines[|lines| - 1])
      case None => init
      case Some(k) => init + [k]
  }

  /** The number of lines with at least 13 whitespace-separated fields. */
  function RecordCount(lines: seq<string>): nat {
    if lines == [] then 0
    else RecordCount(lines[..|lines| - 1]) + (if |SplitWhitespace(lines[|lines| - 1])| >= MinFields then 1 else 0)
  }

  /** The number of keys in `keys` whose tag set holds `tag`. */
  function TaggedWith(lookup: Table, keys: seq<string>, tag: string): nat {
    if keys == [] then 0
    else TaggedWith(lookup, keys[..|keys| - 1], tag) + (if tag in TagsOf(lookup, keys[|keys| - 1]) then 1 else 0)
  }

  /** The number of keys in `keys` that have no tag. */
  function Unmatched(lookup: Table, keys: seq<string>): nat {
    if keys == [] then 0
    else Unmatched(lookup, keys[..|keys| - 1]) + (if TagsOf(lookup, keys[|keys| - 1]) == {} then 1 else 0)
  }

  /** The total number of tags of the keys in `keys`. */
  function TagIncrements(lookup: Table, keys: seq<string>): nat {
    if keys == [] then 0
    else TagIncrements(lookup, keys[..|keys| - 1]) + |TagsOf(lookup, keys[|keys| - 1])|
  }

  /** One record key per line with at least 13 fields. */
  lemma {:induction false} RecordKeysCount(lines: seq<string>)
    ensures |RecordKeys(lines)| == RecordCount(lines)
  {
    if lines != [] {
      RecordKeysCount(lines[..|lines| - 1]);
    }
  }

  /** The count of a key is the number of records with that key, and the keys
      counted are exactly the keys of the records. */
  lemma {:induction false} PortProtocolCountsAreOccurrences(lookup: Table, lines: seq<string>, key: string)
    ensures CountOf(Aggregated(lookup, lines).portProtocolCounts, key) == multiset(RecordKeys(lines))[key]
    ensures key in Aggregated(lookup, lines).portProtocolCounts <==> key in RecordKeys(lines)
  {
    if lines != [] {
      PortProtocolCountsAreOccurrences(lookup, lines[..|lines| - 1], key);
    }
  }

  /** The port/protocol counts sum to the number of lines with at least 13 fields. */
  lemma {:induction false} PortProtocolTotalIsRecordCount(lookup: Table, lines: seq<string>)
    ensures Total(Aggregated(lookup, lines).portProtocolCounts) == RecordCount(lines)
  {
    if lines == [] {
    } else {
      var init := lines[..|lines| - 1];
      PortProtocolTotalIsRecordCount(lookup, init);
      match FlowKey(lines[|lines| - 1])
      case None =>
      case Some(k) => RecordCountedOnce(Aggregated(lookup, init), lookup, k);
    }
  }

  /** The count of a tag is the number of records whose key carries that tag,
      and the tags counted are exactly those some record's key carries. */
  lemma {:induction false} TagCountsAreMatches(lookup: Table, lines: seq<string>, tag: string)
    ensures CountOf(Aggregated(lookup, lines).tagCounts, tag) == TaggedWith(lookup, RecordKeys(lines), tag)
    ensures tag in Aggregated(lookup, lines).tagCounts <==> TaggedWith(lookup, RecordKeys(lines), tag) > 0
  {
    if lines != [] {
      var init := lines[..|lines| - 1];
      TagCountsAreMatches(lookup, init, tag);
      match FlowKey(lines[|lines| - 1])
      case None =>
      case Some(k) =>
        var keys := RecordKeys(init) + [k];
        assert keys[..|keys| - 1] == RecordKeys(init);
    }
  }

  /** Every counted tag and every counted key has a positive count: an entry
      is created only by an increment. */
  lemma CountsArePositive(lookup: Table, lines: seq<string>)
    ensures forall tag :: tag in Aggregated(lookup, lines).tagCounts ==> Aggregated(lookup, lines).tagCounts[tag] > 0
    ensures forall key :: key in Aggregated(lookup, lines).portProtocolCounts ==>
              Aggregated(lookup, lines).portProtocolCounts[key] > 0
  {
    var totals := Aggregated(lookup, lines);
    forall tag | tag in totals.tagCounts
      ensures totals.tagCounts[tag] > 0
    {
      TagCountsAreMatches(lookup, lines, tag);
    }
    forall key | key in totals.portProtocolCounts
      ensures totals.portProtocolCounts[key] > 0
    {
      PortProtocolCountsAreOccurrences(lookup, lines, key);
    }
  }

  /** The tag counts sum to the number of tags over all records: a record with K
      tags contributes K. */
  lemma {:induction false} TagTotalIsTagIncrements(lookup: Table, lines: seq<string>)
    ensures Total(Aggregated(lookup, lines).tagCounts) == TagIncrements(lookup, RecordKeys(lines))
  {
    if lines != [] {
      var init := lines[..|lines| - 1];
      TagTotalIsTagIncrements(lookup, init);
      match FlowKey(lines[|lines| - 1])
      case None =>
      case Some(k) =>
        var keys := RecordKeys(init) + [k];
        assert keys[..|keys| - 1] == RecordKeys(init);
        if TagsOf(lookup, k) != {} {
          TaggedRecord(Aggregated(lookup, init), lookup, k);
        }
    }
  }

  /** The untagged count is the number of records whose key has no tag. */
  lemma {:induction false} UntaggedIsUnmatched(lookup: Table, lines: seq<string>)
    ensures Aggregated(lookup, lines).untaggedCount == Unmatched(lookup, RecordKeys(lines))
  {
    if lines != [] {
      var init := lines[..|lines| - 1];
      UntaggedIsUnmatched(lookup, init);
      match FlowKey(lines[|lines| - 1])
      case None =>
      case Some(k) =>
        var keys := RecordKeys(init) + [k];
        assert keys[..|keys| - 1] == RecordKeys(init);
    }
  }
}
