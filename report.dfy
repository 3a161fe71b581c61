/** The report writer: a "Tag Counts" section with one row per tag and the
    untagged count, then a "Port/Protocol Combination Counts" section with one
    row per key.  Rows within a section come in the order the map happens to
    be walked, which is left open. */
module Report {
  import opened Wrappers
  import opened JavaString
  import opened FlowLogs

  const TagHeader: string := "Tag Counts:\n" + "Tag,Count\n"
  const PortHeader: string := "Port/Protocol Combination Counts:\n" + "Port,Protocol,Count\n"

  /** The row of one tag-count entry: key, comma, decimal count, line break. */
  function Row(key: string, count: nat): string {
    key + "," + NatToString(count) + "\n"
  }

  /** The row of one port/protocol entry, with the key passed through
      `replace(",", ",")` first. */
  function PortRow(key: string, count: nat): string {
    ReplaceChar(key, ',', ',') + "," + NatToString(count) + "\n"
  }

  function UntaggedRow(untaggedCount: nat): string {
    "Untagged," + NatToString(untaggedCount) + "\n\n"
  }

  /** The rows of the entries of `m`, taken in the order `order`. */
  function Rows(order: seq<string>, m: Counter): seq<string> {
    if order == [] then [] else Rows(order[..|order| - 1], m) + [Row(order[|order| - 1], CountOf(m, order[|order| - 1]))]
  }

  function PortRows(order: seq<string>, m: Counter): seq<string> {
    if order == [] then [] else PortRows(order[..|order| - 1], m) + [PortRow(order[|order| - 1], CountOf(m, order[|order| - 1]))]
  }

  function Concat(rows: seq<string>): string {
    if rows == [] then [] else Concat(rows[..|rows| - 1]) + rows[|rows| - 1]
  }

  /** `order` lists every key of `keys` exactly once. */
  ghost predicate Enumerates(order: seq<string>, keys: set<string>) {
    multiset(order) == multiset(keys)
  }

  /** The text the writer produces when it walks the tag counts in `tagOrder`
      and the port/protocol counts in `portOrder`. */
  function Layout(tagCounts: Counter, tagOrder: seq<string>, untaggedCount: nat,
                  portProtocolCounts: Counter, portOrder: seq<string>): string
  {
    TagHeader + (Concat(Rows(tagOrder, tagCounts)) + (UntaggedRow(untaggedCount)
      + (PortHeader + Concat(PortRows(portOrder, portProtocolCounts)))))
  }

  /** `out` is a report of the three aggregates for some walk of each map. */
  ghost predicate IsReport(out: string, tagCounts: Counter, untaggedCount: nat, portProtocolCounts: Counter) {
    exists tagOrder, portOrder {:trigger Layout(tagCounts, tagOrder, untaggedCount, portProtocolCounts, portOrder)} ::
      && Enumerates(tagOrder, tagCounts.Keys)
      && Enumerates(portOrder, portProtocolCounts.Keys)
      && out == Layout(tagCounts, tagOrder, untaggedCount, portProtocolCounts, portOrder)
  }

  /** writeOutputFile, with the written text returned. */
  method WriteOutputFile(tagCounts: Counter, portProtocolCounts: Counter, untaggedCount: nat)
    returns (out: string)
    ensures IsReport(out, tagCounts, untaggedCount, portProtocolCounts)
  {
    out := "Tag Counts:\n";
    out := out + "Tag,Count\n";
    ghost var tagOrder;
    out, tagOrder := WriteTagRows(out, tagCounts);
    ghost var tagRows := Concat(Rows(tagOrder, tagCounts));
    assert out == TagHeader + tagRows;
    out := out + "Untagged," + NatToString(untaggedCount) + "\n\n";
    assert out == TagHeader + tagRows + UntaggedRow(untaggedCount);
    out := out + "Port/Protocol Combination Counts:\n";
    out := out + "Port,Protocol,Count\n";
    assert out == TagHeader + tagRows + UntaggedRow(untaggedCount) + PortHeader;
    ghost var portOrder;
    out, portOrder := WritePortRows(out, portProtocolCounts);
    ghost var portRows := Concat(PortRows(portOrder, portProtocolCounts));
    assert out == TagHeader + tagRows + UntaggedRow(untaggedCount) + PortHeader + portRows;
    Regroup(TagHeader, tagRows, UntaggedRow(untaggedCount), PortHeader, portRows);
    assert out == Layout(tagCounts, tagOrder, untaggedCount, portProtocolCounts, portOrder);
  }

  /** The loop over the tag counts: one row per entry, in the walk `order`. */
  method WriteTagRows(start: string, tagCounts: Counter) returns (out: string, ghost order: seq<string>)
    ensures Enumerates(order, tagCounts.Keys)
    ensures out == start + Concat(Rows(order, tagCounts))
  {
    out := start;
    order := [];
    var pending := tagCounts.Keys;
    while pending != {}
      invariant pending <= tagCounts.Keys
      invariant multiset(order) + multiset(pending) == multiset(tagCounts.Keys)
      invariant out == start + Concat(Rows(order, tagCounts))
      decreases pending
    {
      var tag :| tag in pending;
      out := out + tag + "," + NatToString(tagCounts[tag]) + "\n";
      AppendRow(order, tag, tagCounts);
      order := order + [tag];
      MultisetMove(pending, tag);
      pending := pending - {tag};
    }
  }

  /** The loop over the port/protocol counts, with the key's commas replaced
      by commas. */
  method WritePortRows(start: string, portProtocolCounts: Counter) returns (out: string, ghost order: seq<string>)
    ensures Enumerates(order, portProtocolCounts.Keys)
    ensures out == start + Concat(PortRows(order, portProtocolCounts))
  {
    out := start;
    order := [];
    var pending := portProtocolCounts.Keys;
    while pending != {}
      invariant pending <= portProtocolCounts.Keys
      invariant multiset(order) + multiset(pending) == multiset(portProtocolCounts.Keys)
      invariant out == start + Concat(PortRows(order, portProtocolCounts))
      decreases pending
    {
      var key :| key in pending;
      out := out + ReplaceChar(key, ',', ',') + "," + NatToString(portProtocolCounts[key]) + "\n";
      AppendPortRow(order, key, portProtocolCounts);
      order := order + [key];
      MultisetMove(pending, key);
      pending := pending - {key};
    }
  }

  lemma Regroup(a: string, b: string, c: string, d: string, e: string)
    ensures a + b + c + d + e == a + (b + (c + (d + e)))
  {
  }

  lemma AppendRow(order: seq<string>, key: string, m: Counter)
    requires key in m
    ensures Concat(Rows(order + [key], m)) == Concat(Rows(order, m)) + key + "," + NatToString(m[key]) + "\n"
  {
    assert (order + [key])[..|order|] == order;
    var rows := Rows(order + [key], m);
    assert rows[..|rows| - 1] == Rows(order, m);
  }

  lemma AppendPortRow(order: seq<string>, key: string, m: Counter)
    requires key in m
    ensures Concat(PortRows(order + [key], m)) == Concat(PortRows(order, m)) + ReplaceChar(key, ',', ',') + "," + NatToString(m[key]) + "\n"
  {
    assert (order + [key])[..|order|] == order;
    var rows := PortRows(order + [key], m);
    assert rows[..|rows| - 1] == PortRows(order, m);
  }

  lemma MultisetMove(pending: set<string>, key: string)
    requires key in pending
    ensures multiset(pending) == multiset(pending - {key}) + multiset{key}
  {
    assert pending == (pending - {key}) + {key};
  }

  // ---------------------------------------------------------------------------
  // Properties of a report

  /** Two equal entries of a sequence make its element occur twice. */
  lemma RepeatCounted(order: seq<string>, i: nat, j: nat)
    requires i < j < |order|
    ensures order[i] == order[j] ==> multiset(order)[order[j]] >= 2
  {
    var k := order[j];
    var without := order[..j] + order[j + 1..];
    assert order == without[..j] + [k] + without[j..] by {
      assert order == order[..j] + [order[j]] + order[j + 1..];
    }
    assert without[i] == order[i];
    assert multiset(order) == multiset(without) + multiset{k};
  }

  /** An enumeration lists exactly the keys, each once. */
  lemma EnumerationIsExact(order: seq<string>, keys: set<string>)
    requires Enumerates(order, keys)
    ensures |order| == |keys|
    ensures forall k :: k in order <==> k in keys
    ensures forall i, j :: 0 <= i < j < |order| ==> order[i] != order[j]
  {
    assert |multiset(order)| == |multiset(keys)|;
    forall k
      ensures k in order <==> k in keys
    {
      assert k in order <==> k in multiset(order);
      assert k in keys <==> k in multiset(keys);
    }
    forall i, j | 0 <= i < j < |order|
      ensures order[i] != order[j]
    {
      RepeatCounted(order, i, j);
      assert multiset(keys)[order[j]] <= 1;
    }
  }

  /** The last ',' of `s`, if any. */
  function LastComma(s: string): Option<nat> {
    if s == [] then None
    else if s[|s| - 1] == ',' then Some(|s| - 1)
    else LastComma(s[..|s| - 1])
  }

  lemma {:induction false} LastCommaOf(a: string, b: string)
    requires ',' !in b
    ensures LastComma(a + "," + b) == Some(|a|)
    decreases |b|
  {
    if b != [] {
      var s := a + "," + b;
      assert s[..|s| - 1] == a + "," + b[..|b| - 1];
      assert b[|b| - 1] in b;
      LastCommaOf(a, b[..|b| - 1]);
    }
  }

  /** Reads a report row back: the text before its last comma, and the number
      after it. */
  function ReadRow(row: string): Option<(string, nat)> {
    if row == [] || row[|row| - 1] != '\n' then None
    else
      var body := row[..|row| - 1];
      match LastComma(body)
      case None => None
      case Some(i) =>
        if i < |body| && IsDecimal(body[i + 1..]) then Some((body[..i], ParseDecimal(body[i + 1..]))) else None
  }

  /** A row gives back its key and its count, whatever the key holds. */
  lemma RowRoundTrip(key: string, count: nat)
    ensures ReadRow(Row(key, count)) == Some((key, count))
  {
    var row := Row(key, count);
    var digits := NatToString(count);
    var body := row[..|row| - 1];
    assert body == key + "," + digits;
    LastCommaOf(key, digits);
    assert body[..|key|] == key && body[|key| + 1..] == digits;
    ParseNatToString(count);
  }

  /** Distinct entries give distinct rows. */
  lemma RowInjective(k1: string, v1: nat, k2: string, v2: nat)
    ensures Row(k1, v1) == Row(k2, v2) ==> k1 == k2 && v1 == v2
  {
    RowRoundTrip(k1, v1);
    RowRoundTrip(k2, v2);
  }

  /** The `replace(",", ",")` on a port/protocol key is the identity, so its row
      is the plain row of the key. */
  lemma {:induction false} PortRowsArePlainRows(order: seq<string>, m: Counter)
    ensures PortRows(order, m) == Rows(order, m)
  {
    if order != [] {
      PortRowsArePlainRows(order[..|order| - 1], m);
      ReplaceSameChar(order[|order| - 1], ',');
    }
  }

  /** The rows of every key of `m`. */
  ghost function RowSet(m: Counter): set<string> {
    set k | k in m :: Row(k, m[k])
  }

  /** The rows of the keys listed in `order`. */
  ghost function RowImage(order: seq<string>, m: Counter): set<string>
    requires forall i :: 0 <= i < |order| ==> order[i] in m
  {
    set k | k in order :: Row(k, m[k])
  }

  lemma RowImageSnoc(order: seq<string>, m: Counter)
    requires order != []
    requires forall i :: 0 <= i < |order| ==> order[i] in m
    ensures RowImage(order, m) == RowImage(order[..|order| - 1], m) + {Row(order[|order| - 1], m[order[|order| - 1]])}
  {
    var init, last := order[..|order| - 1], order[|order| - 1];
    assert forall k :: k in order <==> k in init || k == last by {
      assert order == init + [last];
    }
  }

  lemma RowNotYetListed(order: seq<string>, m: Counter)
    requires order != []
    requires forall i :: 0 <= i < |order| ==> order[i] in m
    requires forall i, j :: 0 <= i < j < |order| ==> order[i] != order[j]
    ensures Row(order[|order| - 1], m[order[|order| - 1]]) !in RowImage(order[..|order| - 1], m)
  {
    var init, last := order[..|order| - 1], order[|order| - 1];
    forall k | k in init
      ensures Row(k, m[k]) != Row(last, m[last])
    {
      RowInjective(k, m[k], last, m[last]);
      var i :| 0 <= i < |init| && init[i] == k;
      assert order[i] != order[|order| - 1];
    }
  }

  /** Rows listed for distinct keys of `m` are the rows of exactly those keys,
      each once. */
  lemma {:induction false} RowsOfDistinctKeys(order: seq<string>, m: Counter)
    requires forall i :: 0 <= i < |order| ==> order[i] in m
    requires forall i, j :: 0 <= i < j < |order| ==> order[i] != order[j]
    ensures multiset(Rows(order, m)) == multiset(RowImage(order, m))
  {
    if order != [] {
      var init, last := order[..|order| - 1], order[|order| - 1];
      assert forall i :: 0 <= i < |init| ==> init[i] == order[i];
      RowsOfDistinctKeys(init, m);
      var row := Row(last, m[last]);
      assert Rows(order, m) == Rows(init, m) + [row];
      assert multiset(Rows(order, m)) == multiset(Rows(init, m)) + multiset{row};
      var image, initImage := RowImage(order, m), RowImage(init, m);
      RowImageSnoc(order, m);
      RowNotYetListed(order, m);
      assert image - {row} == initImage;
      MultisetMove(image, row);
    }
  }

  /** Each section of a report holds one row per entry of its map and nothing
      else. */
  lemma SectionRowsAreEntries(order: seq<string>, m: Counter)
    requires Enumerates(order, m.Keys)
    ensures multiset(Rows(order, m)) == multiset(RowSet(m))
    ensures multiset(PortRows(order, m)) == multiset(RowSet(m))
  {
    EnumerationIsExact(order, m.Keys);
    RowsOfDistinctKeys(order, m);
    assert RowImage(order, m) == RowSet(m);
    PortRowsArePlainRows(order, m);
  }

  /** A map whose counts are all positive has no row with count 0. */
  lemma NoZeroRow(m: Counter, k: string)
    requires forall j :: j in m ==> m[j] > 0
    ensures Row(k, 0) !in RowSet(m)
  {
    forall j | j in m
      ensures Row(j, m[j]) != Row(k, 0)
    {
      RowInjective(j, m[j], k, 0);
    }
  }

  /** Two walks of the same map give the same rows, perhaps in another order. */
  lemma RowsOrderIndependent(order1: seq<string>, order2: seq<string>, m: Counter)
    requires Enumerates(order1, m.Keys) && Enumerates(order2, m.Keys)
    ensures multiset(Rows(order1, m)) == multiset(Rows(order2, m))
  {
    SectionRowsAreEntries(order1, m);
    SectionRowsAreEntries(order2, m);
  }

  /** A report starts with the tag section's two header lines, and each
      section holds one row per entry of its map, in some order. */
  lemma ReportShape(out: string, tagCounts: Counter, untaggedCount: nat, portProtocolCounts: Counter)
    requires IsReport(out, tagCounts, untaggedCount, portProtocolCounts)
    ensures out[..|TagHeader|] == TagHeader
    ensures exists tagOrder, portOrder {:trigger Layout(tagCounts, tagOrder, untaggedCount, portProtocolCounts, portOrder)} ::
      && multiset(Rows(tagOrder, tagCounts)) == multiset(RowSet(tagCounts))
      && multiset(PortRows(portOrder, portProtocolCounts)) == multiset(RowSet(portProtocolCounts))
      && out == Layout(tagCounts, tagOrder, untaggedCount, portProtocolCounts, portOrder)
  {
    var tagOrder, portOrder :| && Enumerates(tagOrder, tagCounts.Keys)
      && Enumerates(portOrder, portProtocolCounts.Keys)
      && out == Layout(tagCounts, tagOrder, untaggedCount, portProtocolCounts, portOrder);
    SectionRowsAreEntries(tagOrder, tagCounts);
    SectionRowsAreEntries(portOrder, portProtocolCounts);
  }

  /** The sum of the lengths of some strings. */
  ghost function TotalLength(rows: multiset<string>): nat {
    if rows == multiset{} then 0
    else
      var r :| r in rows;
      |r| + TotalLength(rows - multiset{r})
  }

  lemma {:induction false} TotalLengthRemove(rows: multiset<string>, r: string)
    requires r in rows
    ensures TotalLength(rows) == |r| + TotalLength(rows - multiset{r})
    decreases |rows|
  {
    var s :| s in rows && TotalLength(rows) == |s| + TotalLength(rows - multiset{s});
    if s != r {
      var withoutS, withoutR := rows - multiset{s}, rows - multiset{r};
      assert r in withoutS && s in withoutR;
      assert withoutS - multiset{r} == withoutR - multiset{s};
      TotalLengthRemove(withoutS, r);
      TotalLengthRemove(withoutR, s);
    }
  }

  lemma {:induction false} ConcatLengthIsTotal(rows: seq<string>)
    ensures |Concat(rows)| == TotalLength(multiset(rows))
  {
    if rows != [] {
      var init, last := rows[..|rows| - 1], rows[|rows| - 1];
      ConcatLengthIsTotal(init);
      assert rows == init + [last];
      TotalLengthRemove(multiset(rows), last);
      assert multiset(rows) - multiset{last} == multiset(init);
    }
  }

  lemma LayoutLength(tagCounts: Counter, tagOrder: seq<string>, untaggedCount: nat,
                     portProtocolCounts: Counter, portOrder: seq<string>)
    requires Enumerates(tagOrder, tagCounts.Keys) && Enumerates(portOrder, portProtocolCounts.Keys)
    ensures |Layout(tagCounts, tagOrder, untaggedCount, portProtocolCounts, portOrder)|
      == |TagHeader| + TotalLength(multiset(RowSet(tagCounts))) + |UntaggedRow(untaggedCount)|
         + |PortHeader| + TotalLength(multiset(RowSet(portProtocolCounts)))
  {
    SectionRowsAreEntries(tagOrder, tagCounts);
    SectionRowsAreEntries(portOrder, portProtocolCounts);
    ConcatLengthIsTotal(Rows(tagOrder, tagCounts));
    ConcatLengthIsTotal(PortRows(portOrder, portProtocolCounts));
  }

  /** Two reports of the same aggregates have the same length: they differ at
      most in the order of the rows within each section. */
  lemma ReportsHaveSameLength(out1: string, out2: string, tagCounts: Counter, untaggedCount: nat, portProtocolCounts: Counter)
    requires IsReport(out1, tagCounts, untaggedCount, portProtocolCounts)
    requires IsReport(out2, tagCounts, untaggedCount, portProtocolCounts)
    ensures |out1| == |out2|
  {
    var t1, p1 :| && Enumerates(t1, tagCounts.Keys) && Enumerates(p1, portProtocolCounts.Keys)
      && out1 == Layout(tagCounts, t1, untaggedCount, portProtocolCounts, p1);
    var t2, p2 :| && Enumerates(t2, tagCounts.Keys) && Enumerates(p2, portProtocolCounts.Keys)
      && out2 == Layout(tagCounts, t2, untaggedCount, portProtocolCounts, p2);
    LayoutLength(tagCounts, t1, untaggedCount, portProtocolCounts, p1);
    LayoutLength(tagCounts, t2, untaggedCount, portProtocolCounts, p2);
  }
}
