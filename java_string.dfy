/** The java.lang.String and java.lang.Integer operations the parser relies on,
    stated over `seq<char>`.  Case conversion is modelled over ASCII only. */
module JavaString {

  /** A character matched by the regular-expression class `\s`: space, tab,
      line feed, vertical tab, form feed or carriage return. */
  predicate IsSpace(c: char) {
    c == ' ' || '\t' <= c <= '\r'
  }

  predicate NoSpace(s: string) {
    forall i :: 0 <= i < |s| ==> !IsSpace(s[i])
  }

  predicate AllSpace(s: string) {
    forall i :: 0 <= i < |s| ==> IsSpace(s[i])
  }

  /** `String.trim` removes leading and trailing characters whose code is at most U+0020. */
  predicate IsTrimmable(c: char) {
    c <= ' '
  }

  // ---------------------------------------------------------------------------
  // trim

  function TrimStart(s: string): (r: string)
    ensures |r| <= |s|
  {
    if s != [] && IsTrimmable(s[0]) then TrimStart(s[1..]) else s
  }

  function TrimEnd(s: string): (r: string)
    ensures |r| <= |s|
  {
    if s != [] && IsTrimmable(s[|s| - 1]) then TrimEnd(s[..|s| - 1]) else s
  }

  /** `String.trim`. */
  function Trim(s: string): (r: string)
    ensures |r| <= |s|
  {
    TrimEnd(TrimStart(s))
  }

  /** TrimStart removes exactly the leading characters at or below U+0020. */
  lemma {:induction false} TrimStartSpec(s: string)
    ensures var r := TrimStart(s);
      && r == s[|s| - |r|..]
      && (forall i :: 0 <= i < |s| - |r| ==> IsTrimmable(s[i]))
      && (r == [] || !IsTrimmable(r[0]))
  {
    if s != [] && IsTrimmable(s[0]) {
      TrimStartSpec(s[1..]);
    }
  }

  /** TrimEnd removes exactly the trailing characters at or below U+0020. */
  lemma {:induction false} TrimEndSpec(s: string)
    ensures var r := TrimEnd(s);
      && r == s[..|r|]
      && (forall i :: |r| <= i < |s| ==> IsTrimmable(s[i]))
      && (r == [] || !IsTrimmable(r[|r| - 1]))
  {
    if s != [] && IsTrimmable(s[|s| - 1]) {
      TrimEndSpec(s[..|s| - 1]);
    }
  }

  /** The trim of `s` is the infix `s[i..j]` left after dropping every leading
      and trailing character at or below U+0020; it neither starts nor ends
      with such a character. */
  lemma TrimSpec(s: string)
    ensures exists i, j {:trigger s[i..j]} ::
      && 0 <= i <= j <= |s| && Trim(s) == s[i..j]
      && (forall k :: 0 <= k < i ==> IsTrimmable(s[k]))
      && (forall k :: j <= k < |s| ==> IsTrimmable(s[k]))
    ensures Trim(s) == [] || (!IsTrimmable(Trim(s)[0]) && !IsTrimmable(Trim(s)[|Trim(s)| - 1]))
  {
    var t := TrimStart(s);
    TrimStartSpec(s);
    TrimEndSpec(t);
    var i := |s| - |t|;
    var j := i + |TrimEnd(t)|;
    assert Trim(s) == s[i..j];
  }

  /** Trimming an already trimmed string changes nothing. */
  lemma TrimIdempotent(s: string)
    ensures Trim(Trim(s)) == Trim(s)
  {
    TrimSpec(s);
    var t := Trim(s);
    assert TrimStart(t) == t;
    assert TrimEnd(t) == t;
  }

  /** A string that neither starts nor ends with a trimmable character is its
      own trim. */
  lemma TrimmedAlready(s: string)
    requires s == [] || (!IsTrimmable(s[0]) && !IsTrimmable(s[|s| - 1]))
    ensures Trim(s) == s
  {
  }

  // ---------------------------------------------------------------------------
  // toLowerCase (ASCII)

  predicate IsUpper(c: char) {
    'A' <= c <= 'Z'
  }

  function LowerChar(c: char): (r: char)
    ensures !IsUpper(r)
  {
    if IsUpper(c) then (c as int + 32) as char else c
  }

  function ToLower(s: string): (r: string)
  {
    seq(|s|, i requires 0 <= i < |s| => LowerChar(s[i]))
  }

  /** `toLowerCase` leaves strings without upper-case letters alone, and its
      result has none. */
  lemma ToLowerFixes(s: string)
    ensures (forall i :: 0 <= i < |s| ==> !IsUpper(s[i])) ==> ToLower(s) == s
    ensures |ToLower(s)| == |s| && forall i :: 0 <= i < |s| ==> !IsUpper(ToLower(s)[i])
  {
  }

  lemma ToLowerIdempotent(s: string)
    ensures ToLower(ToLower(s)) == ToLower(s)
  {
    ToLowerFixes(ToLower(s));
  }

  // ---------------------------------------------------------------------------
  // split

  /** Concatenation of `parts` with one `c` between neighbours. */
  function JoinWith(parts: seq<string>, c: char): string
    requires |parts| >= 1
  {
    if |parts| == 1 then parts[0] else parts[0] + [c] + JoinWith(parts[1..], c)
  }

  /** Every piece of `s` between occurrences of `c`, empty ones included: what
      the regular-expression engine finds before `String.split` post-processes it. */
  function Pieces(s: string, c: char): (r: seq<string>)
    ensures |r| >= 1
  {
    if s == [] then [[]]
    else
      var rest := Pieces(s[1..], c);
      if s[0] == c then [[]] + rest
      else [[s[0]] + rest[0]] + rest[1..]
  }

  /** No piece holds the delimiter. */
  lemma {:induction false} PiecesHaveNoDelimiter(s: string, c: char)
    ensures forall i :: 0 <= i < |Pieces(s, c)| ==> c !in Pieces(s, c)[i]
  {
    if s != [] {
      PiecesHaveNoDelimiter(s[1..], c);
    }
  }

  /** Joining the pieces with the delimiter gives back the original string. */
  lemma {:induction false} PiecesJoin(s: string, c: char)
    ensures JoinWith(Pieces(s, c), c) == s
  {
    if s != [] {
      var rest := Pieces(s[1..], c);
      PiecesJoin(s[1..], c);
      if s[0] == c {
        assert ([[]] + rest)[1..] == rest;
      } else if |rest| > 1 {
        assert ([[s[0]] + rest[0]] + rest[1..])[1..] == rest[1..];
      }
    }
  }

  /** There is one more piece than there are delimiters. */
  lemma {:induction false} PiecesCount(s: string, c: char)
    ensures |Pieces(s, c)| == multiset(s)[c] + 1
  {
    if s != [] {
      PiecesCount(s[1..], c);
      assert s == [s[0]] + s[1..];
    }
  }

  /** Removes the empty strings at the end of `parts`, as `String.split` does
      when it is called without a limit. */
  function DropTrailingEmpty(parts: seq<string>): (r: seq<string>)
    ensures |r| <= |parts|
  {
    if parts != [] && parts[|parts| - 1] == [] then DropTrailingEmpty(parts[..|parts| - 1]) else parts
  }

  /** What DropTrailingEmpty keeps is a prefix that does not end in an empty
      string, and everything it drops is empty. */
  lemma {:induction false} DropTrailingEmptySpec(parts: seq<string>)
    ensures var r := DropTrailingEmpty(parts);
      && r == parts[..|r|]
      && (forall i :: |r| <= i < |parts| ==> parts[i] == [])
      && (r == [] || r[|r| - 1] != [])
  {
    if parts != [] && parts[|parts| - 1] == [] {
      DropTrailingEmptySpec(parts[..|parts| - 1]);
    }
  }

  /** `s.split(",")` for a delimiter `c`: the whole string when `c` does not
      occur, otherwise the pieces without the trailing empty ones. */
  function Split(s: string, c: char): seq<string>
  {
    if c !in s then [s] else DropTrailingEmpty(Pieces(s, c))
  }

  /** The length of the leading run of `\s` characters of `s`. */
  function RunLength(s: string): (k: nat)
    ensures k <= |s|
  {
    if s != [] && IsSpace(s[0]) then 1 + RunLength(s[1..]) else 0
  }

  lemma {:induction false} RunLengthSpec(s: string)
    ensures var k := RunLength(s);
      (forall i :: 0 <= i < k ==> IsSpace(s[i])) && (k < |s| ==> !IsSpace(s[k]))
  {
    if s != [] && IsSpace(s[0]) {
      RunLengthSpec(s[1..]);
    }
  }

  /** The pieces of `s` between maximal runs of `\s` characters, empty ones
      included (a leading run gives an empty first piece, a trailing run an
      empty last piece). */
  function SpacePieces(s: string): (r: seq<string>)
    decreases |s|
    ensures |r| >= 1
  {
    if s == [] then [[]]
    else if IsSpace(s[0]) then [[]] + SpacePieces(s[RunLength(s)..])
    else
      var rest := SpacePieces(s[1..]);
      [[s[0]] + rest[0]] + rest[1..]
  }

  /** The shape java.util.regex gives the pieces: none holds a `\s` character,
      and all but the first and the last are non-empty. */
  predicate PiecesShape(r: seq<string>) {
    && (forall i :: 0 <= i < |r| ==> NoSpace(r[i]))
    && (forall i :: 0 < i < |r| - 1 ==> r[i] != [])
  }

  lemma ConsEmptyPiece(rest: seq<string>)
    requires |rest| >= 1 && PiecesShape(rest) && (rest[0] != [] || |rest| == 1)
    ensures PiecesShape([[]] + rest)
  {
    var r := [[]] + rest;
    forall i | 0 <= i < |r| ensures NoSpace(r[i]) {
      if i > 0 { assert r[i] == rest[i - 1]; }
    }
    forall i | 0 < i < |r| - 1 ensures r[i] != [] {
      assert r[i] == rest[i - 1];
    }
  }

  lemma ConsSolidChar(c: char, rest: seq<string>)
    requires !IsSpace(c) && |rest| >= 1 && PiecesShape(rest)
    ensures PiecesShape([[c] + rest[0]] + rest[1..])
  {
    var r := [[c] + rest[0]] + rest[1..];
    forall i | 0 <= i < |r| ensures NoSpace(r[i]) {
      if i > 0 { assert r[i] == rest[i]; } else { assert NoSpace(rest[0]); }
    }
    forall i | 0 < i < |r| - 1 ensures r[i] != [] {
      assert r[i] == rest[i];
    }
  }

  /** The pieces have that shape, and the first is non-empty when `s` starts
      with a character that is not `\s`. */
  lemma {:induction false} SpacePiecesShape(s: string)
    decreases |s|
    ensures PiecesShape(SpacePieces(s))
    ensures s != [] && !IsSpace(s[0]) ==> SpacePieces(s)[0] != []
  {
    if s == [] {
    } else if IsSpace(s[0]) {
      var k := RunLength(s);
      RunLengthSpec(s);
      SpacePiecesShape(s[k..]);
      ConsEmptyPiece(SpacePieces(s[k..]));
    } else {
      SpacePiecesShape(s[1..]);
      ConsSolidChar(s[0], SpacePieces(s[1..]));
    }
  }

  /** The runs of `\s` characters that separate the pieces of `s`. */
  function SpaceRuns(s: string): (r: seq<string>)
    decreases |s|
    ensures |SpacePieces(s)| == |r| + 1
  {
    if s == [] then []
    else if IsSpace(s[0]) then [s[..RunLength(s)]] + SpaceRuns(s[RunLength(s)..])
    else SpaceRuns(s[1..])
  }

  /** pieces[0] + runs[0] + pieces[1] + ... + pieces[|pieces| - 1]. */
  function Weave(pieces: seq<string>, runs: seq<string>): string
    requires |pieces| == |runs| + 1
  {
    if runs == [] then pieces[0] else pieces[0] + runs[0] + Weave(pieces[1..], runs[1..])
  }

  /** Each of `runs` is a non-empty sequence of `\s` characters. */
  predicate AreRuns(runs: seq<string>) {
    forall i :: 0 <= i < |runs| ==> runs[i] != [] && AllSpace(runs[i])
  }

  lemma ConsRuns(run: string, runs: seq<string>)
    requires run != [] && AllSpace(run) && AreRuns(runs)
    ensures AreRuns([run] + runs)
  {
    var g := [run] + runs;
    forall i | 0 <= i < |g|
      ensures g[i] != [] && AllSpace(g[i])
    {
      if i > 0 {
        assert g[i] == runs[i - 1];
      }
    }
  }

  /** Every run is a non-empty sequence of `\s` characters. */
  lemma {:induction false} SpaceRunsAreSpaces(s: string)
    decreases |s|
    ensures AreRuns(SpaceRuns(s))
  {
    if s == [] {
    } else if IsSpace(s[0]) {
      var k := RunLength(s);
      RunLengthSpec(s);
      SpaceRunsAreSpaces(s[k..]);
      ConsRuns(s[..k], SpaceRuns(s[k..]));
    } else {
      SpaceRunsAreSpaces(s[1..]);
    }
  }

  lemma WeaveCons(piece: string, run: string, pieces: seq<string>, runs: seq<string>)
    requires |pieces| == |runs| + 1
    ensures Weave([piece] + pieces, [run] + runs) == piece + run + Weave(pieces, runs)
  {
    assert ([piece] + pieces)[1..] == pieces && ([run] + runs)[1..] == runs;
  }

  lemma WeaveFirstChar(c: char, pieces: seq<string>, runs: seq<string>)
    requires |pieces| == |runs| + 1
    ensures Weave([[c] + pieces[0]] + pieces[1..], runs) == [c] + Weave(pieces, runs)
  {
    var p := [[c] + pieces[0]] + pieces[1..];
    if runs != [] {
      assert p[1..] == pieces[1..];
      assert Weave(p, runs) == ([c] + pieces[0]) + runs[0] + Weave(pieces[1..], runs[1..]);
    }
  }

  /** The pieces, interleaved with the runs, rebuild `s`. */
  lemma {:induction false} SpacePiecesWeave(s: string)
    decreases |s|
    ensures Weave(SpacePieces(s), SpaceRuns(s)) == s
  {
    if s == [] {
    } else if IsSpace(s[0]) {
      var k := RunLength(s);
      assert k >= 1;
      SpacePiecesWeave(s[k..]);
      WeaveAfterRun(s);
    } else {
      SpacePiecesWeave(s[1..]);
      WeaveAfterChar(s);
    }
  }

  lemma WeaveAfterRun(s: string)
    requires s != [] && IsSpace(s[0])
    requires Weave(SpacePieces(s[RunLength(s)..]), SpaceRuns(s[RunLength(s)..])) == s[RunLength(s)..]
    ensures Weave(SpacePieces(s), SpaceRuns(s)) == s
  {
    var k := RunLength(s);
    SplitAtRun(s);
    WeaveEmptyCons(s[..k], SpacePieces(s[k..]), SpaceRuns(s[k..]), s[k..]);
  }

  /** One unfolding of SpacePieces and SpaceRuns at a leading run. */
  lemma SplitAtRun(s: string)
    requires s != [] && IsSpace(s[0])
    ensures SpacePieces(s) == [[]] + SpacePieces(s[RunLength(s)..])
    ensures SpaceRuns(s) == [s[..RunLength(s)]] + SpaceRuns(s[RunLength(s)..])
    ensures s == s[..RunLength(s)] + s[RunLength(s)..]
  {
    PiecesAtRun(s);
    RunsAtRun(s);
  }

  lemma PiecesAtRun(s: string)
    requires s != [] && IsSpace(s[0])
    ensures SpacePieces(s) == [[]] + SpacePieces(s[RunLength(s)..])
  {
  }

  lemma RunsAtRun(s: string)
    requires s != [] && IsSpace(s[0])
    ensures SpaceRuns(s) == [s[..RunLength(s)]] + SpaceRuns(s[RunLength(s)..])
  {
  }

  lemma WeaveEmptyCons(run: string, pieces: seq<string>, runs: seq<string>, rest: string)
    requires |pieces| == |runs| + 1 && Weave(pieces, runs) == rest
    ensures Weave([[]] + pieces, [run] + runs) == run + rest
  {
    WeaveCons([], run, pieces, runs);
  }

  lemma WeaveAfterChar(s: string)
    requires s != [] && !IsSpace(s[0])
    requires Weave(SpacePieces(s[1..]), SpaceRuns(s[1..])) == s[1..]
    ensures Weave(SpacePieces(s), SpaceRuns(s)) == s
  {
    var pieces, runs := SpacePieces(s[1..]), SpaceRuns(s[1..]);
    assert SpacePieces(s) == [[s[0]] + pieces[0]] + pieces[1..];
    assert SpaceRuns(s) == runs;
    WeaveFirstChar(s[0], pieces, runs);
    assert s == [s[0]] + s[1..];
  }

  /** `s.split("\\s+")`: the whole string when it holds no `\s` character,
      otherwise the pieces between runs without the trailing empty ones. */
  function SplitWhitespace(s: string): seq<string>
  {
    if NoSpace(s) then [s] else DropTrailingEmpty(SpacePieces(s))
  }

  /** A string without `\s` characters is one piece. */
  lemma {:induction false} SolidPieces(s: string)
    requires NoSpace(s)
    ensures SpacePieces(s) == [s]
  {
    if s != [] {
      SolidPieces(s[1..]);
      assert s == [s[0]] + s[1..];
    }
  }

  /** Dropping trailing empty strings never reaches past a non-empty second
      element, so it commutes with putting an element in front. */
  lemma {:induction false} DropTrailingEmptyCons(p: string, parts: seq<string>)
    requires parts != [] && parts[0] != []
    ensures DropTrailingEmpty([p] + parts) == [p] + DropTrailingEmpty(parts)
    decreases |parts|
  {
    var whole := [p] + parts;
    if parts[|parts| - 1] == [] {
      var init := parts[..|parts| - 1];
      assert whole[..|whole| - 1] == [p] + init;
      DropTrailingEmptyCons(p, init);
    }
  }

  /** For a non-empty string the whitespace split is always the pieces without
      their trailing empty ones. */
  lemma SplitWhitespaceOfNonEmpty(s: string)
    requires s != []
    ensures SplitWhitespace(s) == DropTrailingEmpty(SpacePieces(s))
  {
    if NoSpace(s) {
      SolidPieces(s);
    }
  }

  /** A line that starts with whitespace and is not all whitespace splits into
      an empty field 0 followed by the split of the line without its leading
      run, so field i + 1 of the line is field i of the unindented line. */
  lemma LeadingSpaceGivesEmptyField(s: string)
    requires s != [] && IsSpace(s[0]) && !AllSpace(s)
    ensures SplitWhitespace(s) == [[]] + SplitWhitespace(s[RunLength(s)..])
    ensures |SplitWhitespace(s)| >= 2 && SplitWhitespace(s)[0] == [] && SplitWhitespace(s)[1] != []
  {
    var k := RunLength(s);
    RunLengthSpec(s);
    assert k < |s|;
    var rest := s[k..];
    assert rest != [] && !IsSpace(rest[0]);
    SpacePiecesShape(rest);
    var parts := SpacePieces(s);
    assert parts == [[]] + SpacePieces(rest);
    assert !NoSpace(s);
    SplitWhitespaceOfNonEmpty(rest);
    DropTrailingEmptyCons([], SpacePieces(rest));
    DropTrailingEmptySpec(SpacePieces(rest));
    assert DropTrailingEmpty(SpacePieces(rest)) != [] by {
      assert SpacePieces(rest)[0] != [];
    }
  }

  /** A solid prefix sticks to the first piece of what follows it. */
  lemma {:induction false} SolidPrefixPieces(a: string, s: string)
    requires NoSpace(a)
    ensures SpacePieces(a + s) == [a + SpacePieces(s)[0]] + SpacePieces(s)[1..]
  {
    var p := SpacePieces(s);
    if a != [] {
      assert NoSpace(a[1..]) && !IsSpace(a[0]);
      SolidPrefixPieces(a[1..], s);
      SolidCharStep(a[0], a[1..] + s, a[1..], p[0], p[1..]);
      assert a + s == [a[0]] + (a[1..] + s);
      assert [a[0]] + a[1..] == a;
    } else {
      assert a + s == s && a + p[0] == p[0];
      assert [p[0]] + p[1..] == p;
    }
  }

  /** A solid character in front of `x` joins the first piece of `x`. */
  lemma SolidCharStep(c: char, x: string, b: string, first: string, rest: seq<string>)
    requires !IsSpace(c)
    requires SpacePieces(x) == [b + first] + rest
    ensures SpacePieces([c] + x) == [([c] + b) + first] + rest
  {
    assert ([c] + x)[1..] == x;
    assert [c] + (b + first) == ([c] + b) + first;
  }

  /** One space before a solid start makes an empty first piece. */
  lemma SpaceThenSolid(s: string)
    requires s != [] && !IsSpace(s[0])
    ensures SpacePieces([' '] + s) == [[]] + SpacePieces(s)
  {
    var t := [' '] + s;
    assert t[1..] == s;
    assert RunLength(t) == 1;
  }

  /** Tokens joined by single spaces are the pieces of the joined line. */
  lemma {:induction false} SpacePiecesOfJoin(tokens: seq<string>)
    requires |tokens| >= 1
    requires forall i :: 0 <= i < |tokens| ==> tokens[i] != [] && NoSpace(tokens[i])
    ensures SpacePieces(JoinWith(tokens, ' ')) == tokens
  {
    if |tokens| == 1 {
      SolidPieces(tokens[0]);
    } else {
      var line := JoinWith(tokens, ' ');
      var rest := tokens[1..];
      assert forall i :: 0 <= i < |rest| ==> rest[i] == tokens[i + 1];
      SpacePiecesOfJoin(rest);
      var tail := JoinWith(rest, ' ');
      assert tail != [] && !IsSpace(tail[0]) by {
        JoinStartsWithFirst(rest, ' ');
      }
      SpaceThenSolid(tail);
      assert line == tokens[0] + ([' '] + tail);
      SolidPrefixPieces(tokens[0], [' '] + tail);
      var q := SpacePieces([' '] + tail);
      assert q[0] == [] && q[1..] == rest;
      assert tokens[0] + q[0] == tokens[0];
      assert tokens == [tokens[0]] + rest;
    }
  }

  /** Tokens joined by single spaces come back from the whitespace split. */
  lemma SplitWhitespaceOfJoin(tokens: seq<string>)
    requires |tokens| >= 1
    requires forall i :: 0 <= i < |tokens| ==> tokens[i] != [] && NoSpace(tokens[i])
    ensures SplitWhitespace(JoinWith(tokens, ' ')) == tokens
  {
    var line := JoinWith(tokens, ' ');
    SpacePiecesOfJoin(tokens);
    JoinStartsWithFirst(tokens, ' ');
    SplitWhitespaceOfNonEmpty(line);
    DropTrailingEmptySpec(tokens);
  }

  lemma JoinStartsWithFirst(parts: seq<string>, c: char)
    requires |parts| >= 1
    ensures |JoinWith(parts, c)| >= |parts[0]| && JoinWith(parts, c)[..|parts[0]|] == parts[0]
  {
  }

  /** A delimiter-free prefix sticks to the first piece of what follows it. */
  lemma {:induction false} PlainPrefixPieces(a: string, s: string, c: char)
    requires c !in a
    ensures Pieces(a + s, c) == [a + Pieces(s, c)[0]] + Pieces(s, c)[1..]
  {
    if a != [] {
      var p := Pieces(s, c);
      PlainPrefixPieces(a[1..], s, c);
      assert (a + s)[1..] == a[1..] + s;
      var r := Pieces(a[1..] + s, c);
      assert r == [a[1..] + p[0]] + p[1..];
      assert (a + s)[0] == a[0] && a[0] != c;
      assert Pieces(a + s, c) == [[a[0]] + r[0]] + r[1..];
      assert [a[0]] + (a[1..] + p[0]) == a + p[0];
      assert r[1..] == p[1..];
    } else {
      var p := Pieces(s, c);
      assert a + s == s && a + p[0] == p[0];
      assert [p[0]] + p[1..] == p;
    }
  }

  lemma DelimiterPieces(s: string, c: char)
    ensures Pieces([c] + s, c) == [[]] + Pieces(s, c)
  {
    assert ([c] + s)[1..] == s;
  }

  /** Two delimiter-free fields around one delimiter are the two pieces. */
  lemma PiecesTwo(b: string, c: string, d: char)
    requires d !in b && d !in c
    ensures Pieces(b + ([d] + c), d) == [b, c]
  {
    var empty: string := [];
    PlainPrefixPieces(c, empty, d);
    assert c + empty == c;
    assert Pieces(c, d) == [c];
    DelimiterPieces(c, d);
    PlainPrefixPieces(b, [d] + c, d);
    assert b + [] == b;
  }

  /** `a,b,c` with no comma inside a field, and a non-empty last field, splits
      into exactly those three fields. */
  lemma SplitThree(a: string, b: string, c: string)
    requires ',' !in a && ',' !in b && ',' !in c && c != []
    ensures Split(a + "," + b + "," + c, ',') == [a, b, c]
  {
    var bc := b + ([','] + c);
    PiecesTwo(b, c, ',');
    DelimiterPieces(bc, ',');
    PlainPrefixPieces(a, [','] + bc, ',');
    assert a + [] == a;
    var line := a + "," + b + "," + c;
    assert line == a + ([','] + bc);
    assert line[|a|] == ',';
    assert Pieces(line, ',') == [a, b, c];
  }

  /** A comma at the end of a row gives no third field: "80,tcp," splits into
      two fields. */
  lemma TrailingCommaDropped()
    ensures |Split("80,tcp,", ',')| == 2
  {
  }

  // ---------------------------------------------------------------------------
  // replace

  /** `s.replace(from, to)` for one-character strings. */
  function ReplaceChar(s: string, from: char, to: char): (r: string)
  {
    seq(|s|, i requires 0 <= i < |s| => if s[i] == from then to else s[i])
  }

  /** Replacing a character by itself is the identity. */
  lemma ReplaceSameChar(s: string, c: char)
    ensures ReplaceChar(s, c, c) == s
  {
  }

  // ---------------------------------------------------------------------------
  // Integer.toString

  predicate IsDecimal(s: string) {
    forall i :: 0 <= i < |s| ==> '0' <= s[i] <= '9'
  }

  function DigitChar(d: nat): (c: char)
    requires d < 10
    ensures '0' <= c <= '9'
  {
    ('0' as int + d) as char
  }

  /** The decimal text of a non-negative count: digits only, no leading zero. */
  function NatToString(n: nat): (r: string)
    decreases n
    ensures |r| >= 1 && IsDecimal(r)
    ensures r[0] == '0' ==> n == 0
    ensures ',' !in r
  {
    if n < 10 then [DigitChar(n)] else NatToString(n / 10) + [DigitChar(n % 10)]
  }

  /** The value of a string of decimal digits. */
  function ParseDecimal(s: string): nat
    requires IsDecimal(s)
  {
    if s == [] then 0 else 10 * ParseDecimal(s[..|s| - 1]) + (s[|s| - 1] as int - '0' as int)
  }

  /** Reading the decimal text of a count gives the count back. */
  lemma {:induction false} ParseNatToString(n: nat)
    decreases n
    ensures ParseDecimal(NatToString(n)) == n
  {
    if n >= 10 {
      ParseNatToString(n / 10);
      var r := NatToString(n);
      assert r[..|r| - 1] == NatToString(n / 10);
    }
  }
}
