/** The lookup-table loader: a header line, then rows `dstport,protocol,tag`
    that map a "port,protocol" key to the set of tags given for it. */
module LookupTable {
  import opened Wrappers
  import opened JavaString

  /** Key "port,protocol" to the tags collected for it. */
  type Table = map<string, set<string>>

  /** What one well-formed row contributes to the table. */
  datatype Entry = Entry(key: string, tag: string)

  /** The key both stages compose: the port, a comma, and the protocol name. */
  function LookupKey(port: string, protocol: string): string {
    port + "," + protocol
  }

  /** A row with exactly three comma-separated fields gives the key
      trim(port) + "," + lower(trim(protocol)) and the tag trim(tag); any other
      row gives nothing. */
  function ParseRow(line: string): Option<Entry> {
    var parts := Split(line, ',');
    if |parts| == 3 then Some(Entry(LookupKey(Trim(parts[0]), ToLower(Trim(parts[1]))), Trim(parts[2])))
    else None
  }

  /** The tags recorded for `key`, empty when there are none. */
  function TagsOf(table: Table, key: string): set<string> {
    if key in table then table[key] else {}
  }

  /** putIfAbsent(key, {}) followed by add(tag), for a row that parsed. */
  function AddEntry(table: Table, entry: Option<Entry>): Table {
    match entry
    case None => table
    case Some(e) => table[e.key := TagsOf(table, e.key) + {e.tag}]
  }

  /** The effect of one row. */
  function AddRow(table: Table, line: string): Table {
    AddEntry(table, ParseRow(line))
  }

  /** After one entry, a key holds a tag exactly when it held it before or the
      entry is that key and tag. */
  lemma AddEntryContents(table: Table, entry: Option<Entry>, key: string, tag: string)
    ensures (key in AddEntry(table, entry) && tag in AddEntry(table, entry)[key])
        <==> (key in table && tag in table[key]) || entry == Some(Entry(key, tag))
  {
  }

  /** After one entry, a key is present exactly when it was before or the entry
      is for that key. */
  lemma AddEntryKeys(table: Table, entry: Option<Entry>, key: string)
    ensures key in AddEntry(table, entry) <==> key in table || (entry.Some? && entry.value.key == key)
  {
  }

  /** The table built from `rows` (the lines after the header), row by row. */
  function Loaded(rows: seq<string>): Table {
    if rows == [] then map[] else AddRow(Loaded(rows[..|rows| - 1]), rows[|rows| - 1])
  }

  /** The table built from a whole file: the first line is the header and is
      discarded unread; an empty file gives an empty table. */
  function TableOf(lines: seq<string>): Table {
    if lines == [] then map[] else Loaded(lines[1..])
  }

  /** Every key of `small` is in `big`, with at least the same tags. */
  predicate Extends(big: Table, small: Table) {
    forall k :: k in small ==> k in big && small[k] <= big[k]
  }

  /** loadLookupTable over the lines of the file. */
  method LoadLookupTable(lines: seq<string>) returns (lookupMap: Table)
    ensures lookupMap == TableOf(lines)
  {
    lookupMap := map[];
    if lines == [] {
      return;
    }
    var i := 1;
    while i < |lines|
      invariant 1 <= i <= |lines|
      invariant lookupMap == Loaded(lines[1..i])
    {
      var line := lines[i];
      lookupMap := LoadRow(lookupMap, line);
      assert lines[1..i + 1] == lines[1..i] + [line];
      i := i + 1;
    }
    assert lines[1..i] == lines[1..];
  }

  /** The body of the loader's loop: one row's split, field-count check,
      putIfAbsent and add. */
  method LoadRow(lookupMap: Table, line: string) returns (lookupMap': Table)
    ensures lookupMap' == AddRow(lookupMap, line)
  {
    lookupMap' := lookupMap;
    var parts := Split(line, ',');
    if |parts| == 3 {
      var key := Trim(parts[0]) + "," + ToLower(Trim(parts[1]));
      var tag := Trim(parts[2]);
      if key !in lookupMap' {
        lookupMap' := lookupMap'[key := {}];
      }
      lookupMap' := lookupMap'[key := lookupMap'[key] + {tag}];
    }
  }

  // ---------------------------------------------------------------------------
  // Properties of one row

  /** A row whose comma split does not have exactly three fields leaves the
      table as it was. */
  lemma MalformedRowIgnored(table: Table, line: string)
    requires |Split(line, ',')| != 3
    ensures AddRow(table, line) == table
  {
  }

  /** A row of three comma-free fields, the last non-empty, gives the entry of
      its trimmed, lower-cased key and its trimmed tag. */
  lemma ParseThreeFields(port: string, protocol: string, tag: string)
    requires ',' !in port && ',' !in protocol && ',' !in tag && tag != []
    ensures ParseRow(port + "," + protocol + "," + tag)
         == Some(Entry(LookupKey(Trim(port), ToLower(Trim(protocol))), Trim(tag)))
  {
    SplitThree(port, protocol, tag);
  }

  /** Three rows are added in file order. */
  lemma LoadedThree(r1: string, r2: string, r3: string)
    ensures Loaded([r1, r2, r3]) == AddRow(AddRow(AddRow(map[], r1), r2), r3)
  {
    assert [r1][..0] == [];
    assert Loaded([r1]) == AddRow(map[], r1);
    assert [r1, r2][..1] == [r1];
    assert Loaded([r1, r2]) == AddRow(Loaded([r1]), r2);
    assert [r1, r2, r3][..2] == [r1, r2];
  }

  /** A row whose fields are already trimmed and whose protocol is already in
      lower case adds its fields unchanged. */
  lemma CleanRowAdded(table: Table, port: string, protocol: string, tag: string)
    requires ',' !in port && ',' !in protocol && ',' !in tag && tag != []
    requires port == [] || (!IsTrimmable(port[0]) && !IsTrimmable(port[|port| - 1]))
    requires protocol == [] || (!IsTrimmable(protocol[0]) && !IsTrimmable(protocol[|protocol| - 1]))
    requires !IsTrimmable(tag[0]) && !IsTrimmable(tag[|tag| - 1])
    requires forall i :: 0 <= i < |protocol| ==> !IsUpper(protocol[i])
    ensures AddRow(table, port + "," + protocol + "," + tag) == AddEntry(table, Some(Entry(LookupKey(port, protocol), tag)))
  {
    ParseThreeFields(port, protocol, tag);
    TrimmedAlready(port);
    TrimmedAlready(protocol);
    TrimmedAlready(tag);
    ToLowerFixes(protocol);
  }

  /** "80,tcp," is a two-field row, so it contributes nothing. */
  lemma TrailingCommaRowIgnored(table: Table)
    ensures AddRow(table, "80,tcp,") == table
  {
    TrailingCommaDropped();
    MalformedRowIgnored(table, "80,tcp,");
  }

  /** A well-formed row leaves its tag in its key's set, and changes no other key. */
  lemma RowAddsTag(table: Table, line: string, e: Entry)
    requires ParseRow(line) == Some(e)
    ensures e.key in AddRow(table, line) && AddRow(table, line)[e.key] == TagsOf(table, e.key) + {e.tag}
    ensures forall k :: k != e.key ==> TagsOf(AddRow(table, line), k) == TagsOf(table, k)
  {
  }

  /** A row whose tag is already recorded for its key changes nothing. */
  lemma DuplicateRowIgnored(table: Table, line: string, e: Entry)
    requires ParseRow(line) == Some(e) && e.key in table && e.tag in table[e.key]
    ensures AddRow(table, line) == table
  {
    assert table[e.key] + {e.tag} == table[e.key];
  }

  /** Adding a row never removes a key or a tag. */
  lemma RowOnlyGrows(table: Table, line: string)
    ensures Extends(AddRow(table, line), table)
  {
  }

  // ---------------------------------------------------------------------------
  // Properties of the loader

  /** Loading more rows only grows the table built from an earlier prefix. */
  lemma {:induction false} LoadedGrows(rows: seq<string>, n: nat)
    requires n <= |rows|
    ensures Extends(Loaded(rows), Loaded(rows[..n]))
    decreases |rows|
  {
    if n < |rows| {
      var init := rows[..|rows| - 1];
      assert init[..n] == rows[..n];
      LoadedGrows(init, n);
      RowOnlyGrows(Loaded(init), rows[|rows| - 1]);
    } else {
      assert rows[..n] == rows;
    }
  }

  /** A tag is in a key's set exactly when some row parses to that key and tag. */
  lemma {:induction false} LoadedContents(rows: seq<string>, key: string, tag: string)
    ensures (key in Loaded(rows) && tag in Loaded(rows)[key])
        <==> exists i :: 0 <= i < |rows| && ParseRow(rows[i]) == Some(Entry(key, tag))
  {
    if rows != [] {
      var init, last := rows[..|rows| - 1], rows[|rows| - 1];
      LoadedContents(init, key, tag);
      AddEntryContents(Loaded(init), ParseRow(last), key, tag);
      assert forall i :: 0 <= i < |init| ==> init[i] == rows[i];
    }
  }

  /** A key is in the table exactly when some row parses to that key. */
  lemma {:induction false} LoadedKeys(rows: seq<string>, key: string)
    ensures key in Loaded(rows)
        <==> exists i :: 0 <= i < |rows| && ParseRow(rows[i]).Some? && ParseRow(rows[i]).value.key == key
  {
    if rows != [] {
      var init, last := rows[..|rows| - 1], rows[|rows| - 1];
      LoadedKeys(init, key);
      AddEntryKeys(Loaded(init), ParseRow(last), key);
      assert forall i :: 0 <= i < |init| ==> init[i] == rows[i];
    }
  }

  /** Every row after the header that splits into exactly three fields leaves
      its trimmed tag in the set of its composed key. */
  lemma WellFormedRowRecorded(lines: seq<string>, i: nat)
    requires 1 <= i < |lines| && |Split(lines[i], ',')| == 3
    ensures var parts := Split(lines[i], ',');
      var key := Trim(parts[0]) + "," + ToLower(Trim(parts[1]));
      key in TableOf(lines) && Trim(parts[2]) in TableOf(lines)[key]
  {
    var parts := Split(lines[i], ',');
    var key := Trim(parts[0]) + "," + ToLower(Trim(parts[1]));
    var rows := lines[1..];
    assert rows[i - 1] == lines[i];
    LoadedContents(rows, key, Trim(parts[2]));
  }

  /** The loader never stores an empty tag set. */
  lemma {:induction false} LoadedSetsNonEmpty(rows: seq<string>)
    ensures forall k :: k in Loaded(rows) ==> Loaded(rows)[k] != {}
  {
    if rows != [] {
      LoadedSetsNonEmpty(rows[..|rows| - 1]);
    }
  }

  /** The header line plays no part: any two files that differ only in their
      first line give the same table. */
  lemma HeaderIgnored(header1: string, header2: string, rows: seq<string>)
    ensures TableOf([header1] + rows) == TableOf([header2] + rows)
    ensures TableOf([header1] + rows) == Loaded(rows)
  {
    assert ([header1] + rows)[1..] == rows;
    assert ([header2] + rows)[1..] == rows;
  }

  /** Two row lists holding the same rows give every key the same tags. */
  lemma SameRowsSameContents(rows1: seq<string>, rows2: seq<string>, key: string, tag: string)
    requires forall r :: r in rows1 <==> r in rows2
    ensures (key in Loaded(rows1) && tag in Loaded(rows1)[key])
        <==> (key in Loaded(rows2) && tag in Loaded(rows2)[key])
  {
    LoadedContents(rows1, key, tag);
    LoadedContents(rows2, key, tag);
    if exists i :: 0 <= i < |rows1| && ParseRow(rows1[i]) == Some(Entry(key, tag)) {
      var i :| 0 <= i < |rows1| && ParseRow(rows1[i]) == Some(Entry(key, tag));
      assert rows1[i] in rows2;
      var j :| 0 <= j < |rows2| && rows2[j] == rows1[i];
      assert ParseRow(rows2[j]) == Some(Entry(key, tag));
    }
    if exists i :: 0 <= i < |rows2| && ParseRow(rows2[i]) == Some(Entry(key, tag)) {
      var i :| 0 <= i < |rows2| && ParseRow(rows2[i]) == Some(Entry(key, tag));
      assert rows2[i] in rows1;
      var j :| 0 <= j < |rows1| && rows1[j] == rows2[i];
      assert ParseRow(rows1[j]) == Some(Entry(key, tag));
    }
  }

  /** The table depends only on which rows occur, not on their order or
      repetition. */
  lemma LoadedOrderIrrelevant(rows1: seq<string>, rows2: seq<string>)
    requires forall r :: r in rows1 <==> r in rows2
    ensures Loaded(rows1) == Loaded(rows2)
  {
    var t1, t2 := Loaded(rows1), Loaded(rows2);
    LoadedSetsNonEmpty(rows1);
    LoadedSetsNonEmpty(rows2);
    forall key | key in t1
      ensures key in t2
    {
      var tag :| tag in t1[key];
      SameRowsSameContents(rows1, rows2, key, tag);
    }
    forall key | key in t2
      ensures key in t1
    {
      var tag :| tag in t2[key];
      SameRowsSameContents(rows1, rows2, key, tag);
    }
    forall key | key in t1
      ensures t1[key] == t2[key]
    {
      forall tag
        ensures tag in t1[key] <==> tag in t2[key]
      {
        SameRowsSameContents(rows1, rows2, key, tag);
      }
    }
  }
}
