/**
 Keeping a generated block between two markers of a text, where the markers are found by first-occurrence search.
 The markers are parameters here; SettingsDoc supplies the real ones.
 */
module BlockSplice {
  import opened Wrappers
  import opened TextSearch
  import opened TextFile

  datatype Markers = Markers(begin: string, end: string)

  /** What the proofs need of two markers: neither can overlap itself or the other, or span lines. */
  ghost predicate Proper(m: Markers) {
    && 5 < |m.begin| && 5 < |m.end|
    && m.begin[0] == '<' && m.end[0] == '<' && m.begin[5] != m.end[5]
    && '<' !in m.begin[1..] && '<' !in m.end[1..]
    && '\n' !in m.begin && '\n' !in m.end && '\r' !in m.begin && '\r' !in m.end
    && !IsSpace(m.begin[|m.begin| - 1])
  }

  /** Python's whitespace. */
  predicate IsSpace(c: char) {
    var n := c as int;
    9 <= n <= 13 || 28 <= n <= 32 || n == 133 || n == 160 || n == 5760 || 8192 <= n <= 8202
    || n == 8232 || n == 8233 || n == 8239 || n == 8287 || n == 12288
  }

  function RStrip(s: string): (r: string)
    ensures r <= s
  {
    if s != "" && IsSpace(s[|s| - 1]) then RStrip(s[..|s| - 1]) else s
  }

  lemma {:induction false} RStripKeeps(s: string, i: nat)
    requires i < |s| && !IsSpace(s[i])
    ensures i < |RStrip(s)|
  {
    hide IsSpace;
    if IsSpace(s[|s| - 1]) {
      RStripKeeps(s[..|s| - 1], i);
    }
  }

  /** What is stripped from the end is white space, all of it there is. */
  lemma {:induction false} RStripSplits(s: string) returns (gap: string)
    ensures s == RStrip(s) + gap && forall c :: c in gap ==> IsSpace(c)
    ensures RStrip(s) == "" || !IsSpace(RStrip(s)[|RStrip(s)| - 1])
  {
    hide IsSpace;
    gap := "";
    if s != "" && IsSpace(s[|s| - 1]) {
      var rest := RStripSplits(s[..|s| - 1]);
      gap := rest + [s[|s| - 1]];
    }
  }

  const ASCII_SPACES := "\t\n\U{b}\U{c}\r\U{1c}\U{1d}\U{1e}\U{1f} "
  const WIDE_SPACES := "\U{85}\U{a0}\U{1680}\U{2028}\U{2029}\U{202f}\U{205f}\U{3000}"

  lemma SpacesAre(c: char)
    ensures IsSpace(c) <==> c in ASCII_SPACES || c in WIDE_SPACES || '\U{2000}' <= c <= '\U{200a}'
  {
    AsciiSpacesAre(c);
    WideSpacesAre(c);
    hide ASCII_SPACES, WIDE_SPACES;
  }

  lemma AsciiSpacesAre(c: char)
    ensures c in ASCII_SPACES <==> 9 <= c as int <= 13 || 28 <= c as int <= 32
  {
    var n := c as int;
    if 9 <= n <= 13 {
      assert ASCII_SPACES[n - 9] == c;
    } else if 28 <= n <= 32 {
      assert ASCII_SPACES[n - 23] == c;
    }
  }

  lemma WideSpacesAre(c: char)
    ensures c in WIDE_SPACES <==>
            || c == '\U{85}' || c == '\U{a0}' || c == '\U{1680}' || c == '\U{2028}' || c == '\U{2029}'
            || c == '\U{202f}' || c == '\U{205f}' || c == '\U{3000}'
  {
    assert |WIDE_SPACES| == 8;
    assert WIDE_SPACES[0] == '\U{85}' && WIDE_SPACES[1] == '\U{a0}' && WIDE_SPACES[2] == '\U{1680}' && WIDE_SPACES[3] == '\U{2028}';
    assert WIDE_SPACES[4] == '\U{2029}' && WIDE_SPACES[5] == '\U{202f}' && WIDE_SPACES[6] == '\U{205f}' && WIDE_SPACES[7] == '\U{3000}';
  }

  /** The new text: a new document, the old one with its block replaced, or the old one with the block put behind it. */
  function Splice(m: Markers, doc: Option<string>, header: string, table: string): string {
    match doc
    case None => header + table + "\n"
    case Some(existing) =>
      if Find(existing, m.begin).Some? && Find(existing, m.end).Some? then
        var (before, _, rest) := Partition(existing, m.begin);
        var (_, _, after) := Partition(rest, m.end);
        before + table + after
      else RStrip(existing) + "\n\n" + table + "\n"
  }

  ghost predicate HasBoth(m: Markers, doc: string) {
    Contains(doc, m.begin) && Contains(doc, m.end)
  }

  function Block(m: Markers, rows: string): string {
    m.begin + rows + m.end
  }

  /** The first end marker behind the rows is the block's own. */
  ghost predicate GoodRows(m: Markers, rows: string) {
    FirstAt(rows + m.end, m.end, |rows|)
  }

  lemma GoodRowsIff(m: Markers, rows: string)
    requires Proper(m)
    ensures GoodRows(m, rows) <==> !Contains(rows, m.end)
  {
    hide IsSpace;
    var e := m.end;
    var t := rows + e;
    assert t[|rows|..|rows| + |e|] == e;
    forall j: nat | j < |rows| ensures OccursAt(t, e, j) <==> OccursAt(rows, e, j) {
      if j + |e| <= |rows| {
        OccursInFront(rows, e, e, j);
      } else {
        CharAt(t, e, j, |rows| - j);
        assert t[|rows|] == '<';
        assert e[|rows| - j] == e[1..][|rows| - j - 1] && e[|rows| - j] in e[1..];
      }
    }
    assert OccursAt(t, e, |rows|);
    if Contains(rows, e) {
      var i: nat :| OccursAt(rows, e, i);
      assert OccursAt(t, e, i);
    }
  }

  /** What stands in a block before its first end marker, begin marker apart. */
  function Inside(m: Markers, rows: string): string {
    Partition(rows + m.end, m.end).0
  }

  /** What stands in a block behind its first end marker. */
  function Excess(m: Markers, rows: string): string {
    Partition(rows + m.end, m.end).2
  }

  lemma FirstEnd(m: Markers, rows: string)
    ensures rows + m.end == Inside(m, rows) + m.end + Excess(m, rows)
    ensures FirstAt(rows + m.end, m.end, |Inside(m, rows)|)
  {
    hide Partition, Find, Contains, FirstAt, OccursAt;
    var t := rows + m.end;
    HoldsItsEnd(rows, m.end);
    FindIsFirst(t, m.end);
    var i := Find(t, m.end).value;
    PartitionAtFirst(t, m.end, i);
    var before, rest := SplitAt(t, m.end, i);
  }

  lemma HoldsItsEnd(text: string, end: string)
    ensures Contains(text + end, end)
  {
    var t := text + end;
    assert t[|text|..|text| + |end|] == end;
    assert OccursAt(t, end, |text|);
  }

  /** Nothing stands behind the first end marker exactly when the rows hold none. */
  lemma NoExcessIff(m: Markers, rows: string)
    requires Proper(m)
    ensures Excess(m, rows) == "" <==> !Contains(rows, m.end)
  {
    hide IsSpace, Contains, OccursAt, Inside, Excess;
    FirstEnd(m, rows);
    GoodRowsIff(m, rows);
    var t, i := rows + m.end, |Inside(m, rows)|;
    assert |t| == i + |m.end| + |Excess(m, rows)|;
    if GoodRows(m, rows) {
      FirstIsUnique(t, m.end, i, |rows|);
    }
  }

  // ---------------------------------------------------------------- what is kept

  /** With both markers and an end behind the first begin: the text before and the text after the block are kept. */
  lemma KeepsBothSides(m: Markers, before: string, inside: string, after: string, header: string, table: string)
    requires FirstAt(before + m.begin + (inside + m.end + after), m.begin, |before|)
    requires FirstAt(inside + m.end + after, m.end, |inside|)
    ensures var doc := before + m.begin + (inside + m.end + after);
            Contains(doc, m.end) && Splice(m, Some(doc), header, table) == before + table + after
  {
    hide FirstAt, OccursAt, Contains, Find, Partition, IsSpace, RStrip;
    var rest := inside + m.end + after;
    var doc := before + m.begin + rest;
    PartitionOf(before, m.begin, rest);
    PartitionOf(inside, m.end, after);
    ContainsBehind(before + m.begin, rest, m.end);
    FindIsFirst(doc, m.end);
  }

  /** With both markers but no end behind the first begin, everything from the first begin on is dropped. */
  lemma DropsTheTail(m: Markers, before: string, rest: string, header: string, table: string)
    requires FirstAt(before + m.begin + rest, m.begin, |before|)
    requires Contains(before + m.begin + rest, m.end) && !Contains(rest, m.end)
    ensures Splice(m, Some(before + m.begin + rest), header, table) == before + table
  {
    hide FirstAt, OccursAt, Contains, Find, IsSpace, RStrip;
    PartitionOf(before, m.begin, rest);
    FindIsFirst(before + m.begin + rest, m.end);
    FindIsFirst(rest, m.end);
    assert before + table + "" == before + table;
  }

  /** Without both markers nothing but trailing white space is dropped. */
  lemma AppendsOtherwise(m: Markers, doc: string, header: string, table: string)
    requires !HasBoth(m, doc)
    ensures Splice(m, Some(doc), header, table) == RStrip(doc) + "\n\n" + table + "\n"
  {
    FindIsFirst(doc, m.begin);
    FindIsFirst(doc, m.end);
  }

  /** The block of a document: from its first begin marker to the first end marker behind that. */
  ghost predicate IsBlock(m: Markers, doc: string, before: string, inside: string, after: string) {
    && doc == before + m.begin + (inside + m.end + after)
    && FirstAt(doc, m.begin, |before|) && FirstAt(inside + m.end + after, m.end, |inside|)
  }

  ghost predicate HasBlock(m: Markers, doc: string) {
    exists before, inside, after :: IsBlock(m, doc, before, inside, after)
  }

  /** Everything outside the block, all of the text if there is none, stands around the table; white space at the end apart. */
  ghost predicate KeepsProse(m: Markers, doc: string, table: string, out: string) {
    if HasBlock(m, doc) then
      exists before, inside, after :: IsBlock(m, doc, before, inside, after) && out == before + table + after
    else
      exists gap, tail :: out == RStrip(doc) + gap + table + tail
  }

  /** The prose is kept exactly when an end marker stands behind the first begin marker, or one of the two is missing. */
  lemma ProseIsKeptIff(m: Markers, doc: string, header: string, table: string)
    requires Proper(m)
    ensures KeepsProse(m, doc, table, Splice(m, Some(doc), header, table)) <==> HasBlock(m, doc) || !HasBoth(m, doc)
  {
    hide Splice, Proper, FirstAt, OccursAt, Contains, Find, RStrip;
    var out := Splice(m, Some(doc), header, table);
    if before, inside, after :| IsBlock(m, doc, before, inside, after) {
      KeepsBothSides(m, before, inside, after, header, table);
      assert out == before + table + after;
    } else if HasBoth(m, doc) {
      FindIsFirst(doc, m.begin);
      var before, rest := SplitAt(doc, m.begin, Find(doc, m.begin).value);
      EndBehindMakesBlock(m, before, rest);
      DropsTheTail(m, before, rest, header, table);
      BeginSurvives(m, doc, |before|);
      ProperEnd(m);
      forall gap: string, tail: string ensures out != RStrip(doc) + gap + table + tail {
        assert |out| < |RStrip(doc) + gap + table + tail|;
      }
    } else {
      AppendsOtherwise(m, doc, header, table);
      assert out == RStrip(doc) + "\n\n" + table + "\n";
    }
  }

  lemma EndBehindMakesBlock(m: Markers, before: string, rest: string)
    requires FirstAt(before + m.begin + rest, m.begin, |before|)
    ensures Contains(rest, m.end) ==> HasBlock(m, before + m.begin + rest)
  {
    hide FirstAt, OccursAt, Contains, Find;
    FindIsFirst(rest, m.end);
    if Contains(rest, m.end) {
      var inside, after := SplitAt(rest, m.end, Find(rest, m.end).value);
      assert IsBlock(m, before + m.begin + rest, before, inside, after);
    }
  }

  // ---------------------------------------------------------------- splicing again

  /** Splicing `once` again puts the excess of the block behind it, so `once` is fixed exactly if the rows hold no end marker. */
  ghost predicate AddsExcess(m: Markers, once: string, header: string, rows: string) {
    var twice := Splice(m, Some(once), header, Block(m, rows));
    && |twice| == |once| + |Excess(m, rows)|
    && (twice == once <==> !Contains(rows, m.end))
  }

  /** Where a block stands at the first begin marker, its excess is left behind the table that takes its place. */
  lemma SpliceWhereBlockStands(m: Markers, before: string, rows: string, after: string, header: string, table: string)
    requires FirstAt(before + Block(m, rows) + after, m.begin, |before|)
    ensures var doc := before + Block(m, rows) + after;
            HasBoth(m, doc) && Splice(m, Some(doc), header, table) == before + table + (Excess(m, rows) + after)
  {
    hide Splice, Inside, Excess, FirstAt, OccursAt, Contains;
    var doc := before + Block(m, rows) + after;
    var inside, excess := Inside(m, rows), Excess(m, rows);
    FirstEnd(m, rows);
    var rest := inside + m.end + (excess + after);
    assert rest == rows + m.end + after;
    FirstInPrefix(rows + m.end, rest, m.end, |inside|);
    assert doc == before + m.begin + rest by { BlockInDoc(m, before, rows, after); }
    KeepsBothSides(m, before, inside, excess + after, header, table);
    PartitionOf(before, m.begin, rest);
  }

  lemma AddsExcessWhereBlockStands(m: Markers, before: string, rows: string, after: string, header: string)
    requires Proper(m) && FirstAt(before + Block(m, rows) + after, m.begin, |before|)
    ensures AddsExcess(m, before + Block(m, rows) + after, header, rows)
  {
    hide Splice, Block, Excess, FirstAt, Contains, Proper;
    SpliceWhereBlockStands(m, before, rows, after, header, Block(m, rows));
    NoExcessIff(m, rows);
    assert "" + after == after;
  }

  lemma BlockInDoc(m: Markers, before: string, rows: string, after: string)
    ensures before + Block(m, rows) + after == before + m.begin + (rows + m.end + after)
  {
  }

  lemma BlockBegins(m: Markers, rows: string)
    requires Proper(m)
    ensures var block := Block(m, rows);
            |m.begin| <= |block| && block[..|m.begin|] == m.begin && FirstAt(block, m.begin, 0)
  {
    var block := Block(m, rows);
    assert block[0..0 + |m.begin|] == m.begin;
  }

  /** A splice leaves the block standing at the first begin marker, between parts of the document. */
  lemma SplicedShape(m: Markers, doc: string, header: string, rows: string) returns (before: string, after: string)
    requires Proper(m) && HasBoth(m, doc)
    ensures Splice(m, Some(doc), header, Block(m, rows)) == before + Block(m, rows) + after
    ensures FirstAt(before + Block(m, rows) + after, m.begin, |before|)
    ensures forall c :: c in before || c in after ==> c in doc
  {
    hide Splice, Block, Proper, FirstAt, OccursAt, Find;
    FindIsFirst(doc, m.begin);
    var b := Find(doc, m.begin).value;
    var rest;
    before, rest := SplitAt(doc, m.begin, b);
    after := "";
    var table := Block(m, rows);
    FindIsFirst(rest, m.end);
    if Contains(rest, m.end) {
      var e := Find(rest, m.end).value;
      var inside, behind := SplitAt(rest, m.end, e);
      KeepsBothSides(m, before, inside, behind, header, table);
      after := behind;
    } else {
      DropsTheTail(m, before, rest, header, table);
      assert before + table + "" == before + table;
    }
    FirstStays(m, doc, b, rows, after);
  }

  /** The text after the block grows by the excess with every splice. */
  lemma AddsExcessAfterSplice(m: Markers, doc: string, header: string, rows: string)
    requires Proper(m) && HasBoth(m, doc)
    ensures AddsExcess(m, Splice(m, Some(doc), header, Block(m, rows)), header, rows)
  {
    hide Splice, Block, Proper, AddsExcess, FirstAt, Contains;
    var before, after := SplicedShape(m, doc, header, rows);
    AddsExcessWhereBlockStands(m, before, rows, after, header);
  }

  lemma SplitAt(doc: string, pattern: string, b: nat) returns (before: string, rest: string)
    requires FirstAt(doc, pattern, b)
    ensures b + |pattern| <= |doc| && before == doc[..b] && |before| == b && rest == doc[b + |pattern|..]
    ensures doc == before + pattern + rest
  {
    before, rest := doc[..b], doc[b + |pattern|..];
  }

  lemma FirstStays(m: Markers, doc: string, b: nat, rows: string, after: string)
    requires Proper(m) && FirstAt(doc, m.begin, b)
    ensures FirstAt(doc[..b] + Block(m, rows) + after, m.begin, b) && |doc[..b]| == b
  {
    var out := doc[..b] + Block(m, rows) + after;
    BlockBegins(m, rows);
    assert out[..b + |m.begin|] == doc[..b] + m.begin == doc[..b + |m.begin|];
    FirstInPrefix(doc, out, m.begin, b);
  }

  lemma AddsExcessAfterAppend(m: Markers, text: string, header: string, rows: string)
    requires Proper(m) && !Contains(text, m.begin)
    ensures AddsExcess(m, text + "\n\n" + Block(m, rows) + "\n", header, rows)
  {
    hide Splice, Block, AddsExcess, FirstAt, OccursAt, IsSpace;
    BlockBegins(m, rows);
    FirstBehindTwoLines(text, Block(m, rows), "\n", m.begin, 0);
    AddsExcessWhereBlockStands(m, text + "\n\n", rows, "\n", header);
  }

  /** Two newlines keep an occurrence behind them the first, if there is none before them. */
  lemma FirstBehindTwoLines(text: string, table: string, after: string, pattern: string, i: nat)
    requires pattern != "" && '\n' !in pattern && !Contains(text, pattern) && FirstAt(table, pattern, i)
    ensures FirstAt(text + "\n\n" + table + after, pattern, |text + "\n\n"| + i)
  {
    var tail := table + after;
    FirstInPrefix(table, tail, pattern, i);
    AbsentWithoutFirst("", pattern);
    FirstAfterSeparator("", '\n', tail, pattern, i);
    FirstAfterSeparator(text, '\n', "" + ['\n'] + tail, pattern, 1 + i);
    assert text + ['\n'] + ("" + ['\n'] + tail) == text + "\n\n" + table + after;
  }

  lemma AddsExcessAfterCreation(m: Markers, header: string, rows: string)
    requires Proper(m) && '<' !in header
    ensures AddsExcess(m, Splice(m, None, header, Block(m, rows)), header, rows)
  {
    hide IsSpace, FirstAt, OccursAt, AddsExcess, Block, Find;
    var tail := Block(m, rows) + "\n";
    FirstInPrefixOfBlock(m, rows, "\n");
    FirstAfterText(header, tail, m.begin, 0);
    assert header + tail == header + Block(m, rows) + "\n";
    AddsExcessWhereBlockStands(m, header, rows, "\n", header);
  }

  /** In a new document the header stands before the block, whose rows are the given ones, and a newline behind it. */
  lemma NewDocument(m: Markers, header: string, rows: string)
    requires Proper(m) && '<' !in header && !Contains(rows, m.end)
    ensures IsBlock(m, Splice(m, None, header, Block(m, rows)), header, rows, "\n")
  {
    hide IsSpace, FirstAt, OccursAt, Contains, Find;
    var inner := rows + m.end + "\n";
    GoodRowsIff(m, rows);
    FirstInPrefix(rows + m.end, inner, m.end, |rows|);
    FirstInPrefixOfBlock(m, rows, "\n");
    FirstAfterText(header, Block(m, rows) + "\n", m.begin, 0);
    assert header + (Block(m, rows) + "\n") == header + Block(m, rows) + "\n";
    assert header + m.begin + inner == header + Block(m, rows) + "\n";
  }

  /** A later write of another table leaves a new document's header as it is. */
  lemma HeaderIsKept(m: Markers, header: string, rows: string, other: string, table: string)
    requires Proper(m) && '<' !in header && !Contains(rows, m.end)
    ensures Splice(m, Some(Splice(m, None, header, Block(m, rows))), other, table) == header + table + "\n"
  {
    hide Splice, Contains, FirstAt, Block, Proper;
    NewDocument(m, header, rows);
    KeepsBothSides(m, header, rows, "\n", other, table);
  }

  lemma FirstInPrefixOfBlock(m: Markers, rows: string, after: string)
    requires Proper(m)
    ensures FirstAt(Block(m, rows) + after, m.begin, 0)
  {
    BlockBegins(m, rows);
    FirstInPrefix(Block(m, rows), Block(m, rows) + after, m.begin, 0);
  }

  // ---------------------------------------------------------------- the half block

  /** The begin marker does not disturb the search for an end: none starts in it or across its edge. */
  lemma BlockEnds(m: Markers, rows: string)
    requires Proper(m)
    ensures FirstAt(Block(m, rows), m.end, |m.begin| + |Inside(m, rows)|)
  {
    hide IsSpace, Inside, Excess, FirstAt, OccursAt;
    FirstEnd(m, rows);
    var inner := rows + m.end;
    var most := m.begin[1..] + inner;
    assert Block(m, rows) == [m.begin[0]] + most;
    assert m.end[0] == '<';
    FirstAfterText(m.begin[1..], inner, m.end, |Inside(m, rows)|);
    FirstAfterMismatch(m.end, m.begin[0], most, |m.begin| - 1 + |Inside(m, rows)|);
  }

  lemma BeginHasNoEnd(m: Markers)
    requires Proper(m)
    ensures !Contains(m.begin, m.end)
  {
    hide IsSpace;
    var rest := m.begin[1..];
    AbsentWithoutFirst(rest, m.end);
    forall i: nat ensures !OccursAt(m.begin, m.end, i) {
      CharAt(m.begin, m.end, 0, 5);
      if 0 < i {
        OccursLater(m.begin, m.end, i - 1);
      }
    }
  }

  lemma FirstAfterMismatch(pattern: string, c: char, t: string, i: nat)
    requires FirstAt(t, pattern, i) && 5 < |pattern| && 5 <= |t| && t[4] != pattern[5]
    ensures FirstAt([c] + t, pattern, i + 1)
  {
    var s := [c] + t;
    assert s[1..] == t;
    forall j: nat ensures OccursAt(s, pattern, j + 1) <==> OccursAt(t, pattern, j) { OccursLater(s, pattern, j); }
    CharAt(s, pattern, 0, 5);
    assert s[5] == t[4];
    forall j: nat | j < i + 1 ensures !OccursAt(s, pattern, j) {
      if 0 < j {
        assert OccursAt(s, pattern, (j - 1) + 1) <==> OccursAt(t, pattern, j - 1);
      }
    }
  }

  /**
   With a begin marker but no end marker, the first splice appends the block, and the second one puts the block in
   place of everything from the first begin marker to the first end marker. The end markers then stand at different
   places, so the two differ, whatever the rows.
   */
  lemma NotFixedAfterHalfBlock(m: Markers, doc: string, header: string, rows: string)
    requires Proper(m) && Contains(doc, m.begin) && !Contains(doc, m.end)
    ensures var once := Splice(m, Some(doc), header, Block(m, rows));
            var twice := Splice(m, Some(once), header, Block(m, rows));
            twice != once && (!Contains(rows, m.end) ==> |twice| < |once|)
  {
    hide Splice, Block, Contains, IsSpace, FirstAt, OccursAt, Find, Proper, Inside, Excess;
    var before, left := HalfBlockOnce(m, doc, header, rows);
    var table, gap := Block(m, rows), left + "\n\n";
    var once := before + m.begin + (gap + table + "\n");
    HalfBlockTwice(m, before, left, header, rows);
    var twice := before + table + (Excess(m, rows) + "\n");
    NoExcessIff(m, rows);
    BlockSize(m, rows);
    EndsDiffer(m, before, gap, rows, Excess(m, rows) + "\n");
  }

  /** So the second splice drops the prose behind a lone begin marker: only the text before it is left. */
  lemma HalfBlockLosesProse(m: Markers, doc: string, header: string, rows: string) returns (before: string, left: string)
    requires Proper(m) && Contains(doc, m.begin) && !Contains(doc, m.end)
    ensures RStrip(doc) == before + m.begin + left
    ensures var once := Splice(m, Some(doc), header, Block(m, rows));
            && once == RStrip(doc) + "\n\n" + Block(m, rows) + "\n"
            && Splice(m, Some(once), header, Block(m, rows)) == before + Block(m, rows) + (Excess(m, rows) + "\n")
  {
    hide Splice, Block, Contains, IsSpace, FirstAt, OccursAt, Find, Proper, Excess;
    before, left := HalfBlockOnce(m, doc, header, rows);
    HalfBlockTwice(m, before, left, header, rows);
    AppendsOtherwise(m, doc, header, Block(m, rows));
  }

  /** What the first splice makes of half a block. */
  lemma HalfBlockOnce(m: Markers, doc: string, header: string, rows: string) returns (before: string, left: string)
    requires Proper(m) && Contains(doc, m.begin) && !Contains(doc, m.end)
    ensures Splice(m, Some(doc), header, Block(m, rows)) == before + m.begin + (left + "\n\n" + Block(m, rows) + "\n")
    ensures FirstAt(before + m.begin + (left + "\n\n" + Block(m, rows) + "\n"), m.begin, |before|)
    ensures !Contains(left, m.end) && RStrip(doc) == before + m.begin + left
  {
    hide Splice, Block, IsSpace, FirstAt, OccursAt, Find, Proper;
    FindIsFirst(doc, m.begin);
    var b, text, table := Find(doc, m.begin).value, RStrip(doc), Block(m, rows);
    BeginSurvives(m, doc, b);
    AppendsOtherwise(m, doc, header, table);
    var out := text + "\n\n" + table + "\n";
    var lo := b + |m.begin|;
    var rest0;
    before, rest0 := SplitAt(doc, m.begin, b);
    assert out[..lo] == text[..lo] == doc[..lo];
    FirstInPrefix(doc, out, m.begin, b);
    left := text[lo..];
    assert text == before + m.begin + left;
    assert out == before + m.begin + (left + "\n\n" + table + "\n");
    LeftHasNoEnd(m, doc, lo);
  }

  lemma HalfBlockTwice(m: Markers, before: string, left: string, header: string, rows: string)
    requires Proper(m) && !Contains(left, m.end)
    requires FirstAt(before + m.begin + (left + "\n\n" + Block(m, rows) + "\n"), m.begin, |before|)
    ensures var gap := left + "\n\n";
            && Splice(m, Some(before + m.begin + (gap + Block(m, rows) + "\n")), header, Block(m, rows))
               == before + Block(m, rows) + (Excess(m, rows) + "\n")
            && FirstAt(gap + Block(m, rows) + "\n", m.end, |gap| + |m.begin| + |Inside(m, rows)|)
  {
    hide Splice, IsSpace, FirstAt, OccursAt, Contains, Proper, Inside, Excess;
    var gap, rest := left + "\n\n", left + "\n\n" + Block(m, rows) + "\n";
    BlockEnds(m, rows);
    ProperEnd(m);
    FirstBehindTwoLines(left, Block(m, rows), "\n", m.end, |m.begin| + |Inside(m, rows)|);
    FirstEnd(m, rows);
    var inside, after := gap + m.begin + Inside(m, rows), Excess(m, rows) + "\n";
    assert rest == gap + m.begin + (rows + m.end) + "\n";
    assert rest == inside + m.end + after;
    KeepsBothSides(m, before, inside, after, header, Block(m, rows));
  }

  /** The gap before a block moves the first end marker, so no text with the gap equals one without. */
  lemma EndsDiffer(m: Markers, before: string, gap: string, rows: string, after: string)
    requires Proper(m)
    requires FirstAt(gap + Block(m, rows) + "\n", m.end, |gap| + |m.begin| + |Inside(m, rows)|)
    ensures before + Block(m, rows) + after != before + m.begin + (gap + Block(m, rows) + "\n")
  {
    hide IsSpace, FirstAt, OccursAt, Contains, Inside, Excess;
    var rest, other := gap + Block(m, rows) + "\n", rows + m.end + after;
    var lo, i := |before| + |m.begin|, |Inside(m, rows)|;
    assert (before + m.begin + rest)[lo..] == rest;
    BlockInDoc(m, before, rows, after);
    assert (before + m.begin + other)[lo..] == other;
    FirstEnd(m, rows);
    FirstInPrefix(rows + m.end, other, m.end, i);
    if rest == other {
      FirstIsUnique(rest, m.end, i, |gap| + |m.begin| + i);
    }
  }

  lemma BlockSize(m: Markers, rows: string)
    ensures |Block(m, rows)| == |m.begin| + |rows| + |m.end|
  {
  }

  lemma ProperEnd(m: Markers)
    requires Proper(m)
    ensures m.end != "" && '\n' !in m.end && m.begin != ""
  {
  }

  lemma BeginSurvives(m: Markers, doc: string, b: nat)
    requires Proper(m) && FirstAt(doc, m.begin, b)
    ensures b + |m.begin| <= |RStrip(doc)|
  {
    hide IsSpace;
    CharAt(doc, m.begin, b, |m.begin| - 1);
    RStripKeeps(doc, b + |m.begin| - 1);
  }

  lemma LeftHasNoEnd(m: Markers, doc: string, lo: nat)
    requires lo <= |RStrip(doc)| && !Contains(doc, m.end)
    ensures !Contains(RStrip(doc)[lo..], m.end)
  {
    var text := RStrip(doc);
    assert text[lo..] == doc[lo..|text|];
    if Contains(doc[lo..|text|], m.end) {
      ContainsInPart(doc, m.end, lo, |text|);
    }
  }

  lemma AddsExcessWithoutBegin(m: Markers, doc: string, header: string, rows: string)
    requires Proper(m) && !Contains(doc, m.begin)
    ensures AddsExcess(m, Splice(m, Some(doc), header, Block(m, rows)), header, rows)
  {
    hide Splice, Block, Proper, AddsExcess, Contains;
    var text := RStrip(doc);
    if Contains(text, m.begin) {
      assert text == doc[0..|text|];
      ContainsInPart(doc, m.begin, 0, |text|);
    }
    AppendsOtherwise(m, doc, header, Block(m, rows));
    AddsExcessAfterAppend(m, text, header, rows);
  }

  /** Splicing is idempotent exactly unless the rows hold the end marker or the document the begin marker without the end marker. */
  lemma IdempotentIff(m: Markers, doc: Option<string>, header: string, rows: string)
    requires Proper(m) && '<' !in header
    ensures var once := Splice(m, doc, header, Block(m, rows));
            Splice(m, Some(once), header, Block(m, rows)) == once
            <==> !Contains(rows, m.end) && (doc.None? || !Contains(doc.value, m.begin) || Contains(doc.value, m.end))
  {
    hide Splice, Proper, Contains, Block, Excess;
    if doc.None? {
      AddsExcessAfterCreation(m, header, rows);
    } else if !Contains(doc.value, m.begin) {
      AddsExcessWithoutBegin(m, doc.value, header, rows);
    } else if Contains(doc.value, m.end) {
      AddsExcessAfterSplice(m, doc.value, header, rows);
    } else {
      NotFixedAfterHalfBlock(m, doc.value, header, rows);
    }
  }

  /** Every result holds both markers. */
  lemma SplicedHasBoth(m: Markers, doc: Option<string>, header: string, rows: string)
    ensures HasBoth(m, Splice(m, doc, header, Block(m, rows)))
  {
    hide Contains, OccursAt, Find;
    var table := Block(m, rows);
    var out := Splice(m, doc, header, table);
    var lo: nat;
    if doc.None? {
      lo := |header|;
    } else {
      FindIsFirst(doc.value, m.begin);
      FindIsFirst(doc.value, m.end);
      lo := if HasBoth(m, doc.value) then |Partition(doc.value, m.begin).0| else |RStrip(doc.value)| + 2;
    }
    assert out[lo..lo + |table|] == table;
    BlockHasBoth(m, rows);
    ContainsInPart(out, m.begin, lo, lo + |table|);
    ContainsInPart(out, m.end, lo, lo + |table|);
  }

  lemma BlockHasBoth(m: Markers, rows: string)
    ensures HasBoth(m, Block(m, rows))
  {
    var block := Block(m, rows);
    assert block[0..0 + |m.begin|] == m.begin;
    var lo := |m.begin| + |rows|;
    assert block[lo..lo + |m.end|] == m.end;
    assert OccursAt(block, m.begin, 0) && OccursAt(block, m.end, lo);
  }

  /** From the second splice on, each further one adds the excess: a fixed point if there is none, else growth for ever. */
  lemma LaterSplicesAddExcess(m: Markers, doc: Option<string>, header: string, rows: string)
    requires Proper(m)
    ensures var once := Splice(m, doc, header, Block(m, rows));
            AddsExcess(m, Splice(m, Some(once), header, Block(m, rows)), header, rows)
  {
    hide Splice, Proper, Block, AddsExcess, Contains;
    SplicedHasBoth(m, doc, header, rows);
    AddsExcessAfterSplice(m, Splice(m, doc, header, Block(m, rows)), header, rows);
  }

  /** An end marker before the only begin marker, and prose behind it: the prose is dropped. */
  lemma WrongOrderDrops(m: Markers, prose: string, header: string, table: string)
    requires Proper(m) && !Contains(prose, m.end)
    ensures Splice(m, Some(m.end + m.begin + prose), header, table) == m.end + table
  {
    hide Splice, IsSpace, FirstAt, OccursAt, Contains, Proper;
    BeginBehindEnd(m, prose);
    HoldsItsEnd("", m.end);
    assert "" + m.end == m.end && m.end + m.begin + prose == m.end + (m.begin + prose);
    ContainsInFront(m.end, m.begin + prose, m.end);
    DropsTheTail(m, m.end, prose, header, table);
  }

  lemma BeginBehindEnd(m: Markers, prose: string)
    requires Proper(m)
    ensures FirstAt(m.end + m.begin + prose, m.begin, |m.end|)
  {
    hide IsSpace, FirstAt;
    var rest := m.begin + prose;
    var t := m.end[1..] + rest;
    BeginFirst(m.begin, prose);
    assert m.begin[0] == '<';
    FirstAfterText(m.end[1..], rest, m.begin, 0);
    FirstAfterMismatch(m.begin, m.end[0], t, |m.end| - 1);
    assert m.end + m.begin + prose == [m.end[0]] + t;
  }

  lemma BeginFirst(pattern: string, after: string)
    ensures FirstAt(pattern + after, pattern, 0)
  {
    assert (pattern + after)[0..0 + |pattern|] == pattern;
  }

  // ---------------------------------------------------------------- reading back what was written

  /** Which characters a result has. */
  lemma SplicedChars(m: Markers, doc: Option<string>, header: string, table: string, c: char)
    ensures c in Splice(m, doc, header, table) ==>
              c == '\n' || c in header || c in table || (doc.Some? && c in doc.value)
    ensures c in table ==> c in Splice(m, doc, header, table)
  {
    hide Find, IsSpace, RStrip;
    if doc.Some? {
      var (before, _, rest) := Partition(doc.value, m.begin);
      PartitionChars(doc.value, m.begin, c);
      PartitionChars(rest, m.end, c);
      assert c in RStrip(doc.value) ==> c in doc.value;
    }
  }

  lemma PartitionChars(s: string, pattern: string, c: char)
    ensures c in Partition(s, pattern).0 || c in Partition(s, pattern).2 ==> c in s
  {
  }

  /** A block read back, between texts without carriage returns, is the block of the rows read back. */
  lemma ReadBlock(m: Markers, before: string, rows: string, after: string)
    requires Proper(m) && '\r' !in before && '\r' !in after
    ensures ReadText(before + Block(m, rows) + after) == before + Block(m, ReadText(rows)) + after
  {
    hide IsSpace, ReadText;
    var tail := rows + m.end;
    assert Block(m, rows) == m.begin + tail;
    ReadHasNoReturn(before);
    ReadHasNoReturn(after);
    ReadHasNoReturn(m.begin);
    ReadHasNoReturn(m.end);
    ReadConcat(before + Block(m, rows), after);
    ReadConcat(before, Block(m, rows));
    ReadConcat(m.begin, tail);
    ReadConcat(rows, m.end);
  }
}
