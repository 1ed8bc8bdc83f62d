/**
 The generated block of docs/configuration.md: rendering the table of environment variables, splicing it into the
 document, and the `--write` / `--check` modes over it.
 */
module SettingsDoc {
  import opened Wrappers
  import opened Numerals
  import opened TextSearch
  import opened TextFile
  import opened BlockSplice

  // Long literals are cut into pieces, which keeps facts about their characters cheap to prove.
  const BEGIN_SUBJECT1 := "!-- BEGIN AUTO: env-"
  const BEGIN_SUBJECT2 := "vars table \U{2014} genera"
  const BEGIN_SOURCE1 := "ted by scripts/dump_"
  const BEGIN_SOURCE2 := "settings_schema.py -->"

  const BEGIN := "<" + BEGIN_SUBJECT1 + BEGIN_SUBJECT2 + BEGIN_SOURCE1 + BEGIN_SOURCE2
  const END := "<" + "!-- END AUTO -->"
  const MARKERS := Markers(BEGIN, END)

  const TITLES := "|" + " Env var " + "|" + " Type " + "|" + " Default " + "|" + " Source " + "|"
  const RULER := "|---|---|---|---|"

  const LINE1 := "# Configuration\n\n"
  const LINE2A := "Every environment variable read "
  const LINE2B := "by `config/settings/base.py`.\n"
  const LINE3 := "The table below is regenerated by\n"
  const LINE4A := "`scripts/dump_settings_schema.py`."
  const LINE4B := " Do not hand-edit the rows\n"
  const LINE5A := "between the `BEGIN AUTO` / `END AUTO`"
  const LINE5B := " markers \U{2014} run the script\n"
  const LINE6A := "instead. Prose around the "
  const LINE6B := "markers is preserved.\n\n"

  const HEADER := LINE1 + LINE2A + LINE2B + LINE3 + LINE4A + LINE4B + LINE5A + LINE5B + LINE6A + LINE6B

  datatype EnvVar = EnvVar(name: string, default: string, typ: string, line: nat)

  // ---------------------------------------------------------------- the table

  /** A cell in backticks, and the cells after it. */
  function Ticked(field: string, rest: string): string {
    "`" + field + "` | " + rest
  }

  function SourceCell(line: nat): string {
    "`config/settings/base.py:" + Decimal(line) + "` |"
  }

  function Row(v: EnvVar): string {
    "| " + Ticked(v.name, Ticked(v.typ, v.default + " | " + SourceCell(v.line)))
  }

  /** `"\n".join(lines)`. */
  function Join(lines: seq<string>): string {
    if lines == [] then ""
    else if |lines| == 1 then lines[0]
    else Join(lines[..|lines| - 1]) + "\n" + lines[|lines| - 1]
  }

  /** Everything between the end of the begin marker and the newline after the last row, line by line. */
  function Body(vars: seq<EnvVar>): string {
    if vars == [] then "" + "\n" + "" + "\n" + TITLES + "\n" + RULER
    else Body(vars[..|vars| - 1]) + "\n" + Row(vars[|vars| - 1])
  }

  function Rows(vars: seq<EnvVar>): string {
    Body(vars) + "\n" + "" + "\n"
  }

  function Table(vars: seq<EnvVar>): string {
    Block(MARKERS, Rows(vars))
  }

  method RenderTable(vars: seq<EnvVar>) returns (table: string)
    ensures table == Table(vars)
  {
    hide BEGIN, END, TITLES, RULER, Join, Row;
    var lines := [BEGIN, "", TITLES, RULER];
    JoinHead(BEGIN, TITLES, RULER);
    assert Join(lines) == BEGIN + Body([]);
    for i := 0 to |vars|
      invariant lines != [] && Join(lines) == BEGIN + Body(vars[..i])
    {
      AddRow(lines, BEGIN, vars[..i], vars[i]);
      assert vars[..i + 1] == vars[..i] + [vars[i]];
      lines := lines + [Row(vars[i])];
    }
    assert vars[..|vars|] == vars;
    JoinTail(lines, BEGIN, Body(vars), END);
    lines := lines + [""];
    lines := lines + [END];
    table := Join(lines);
  }

  lemma JoinOne(lines: seq<string>, line: string)
    requires lines != []
    ensures Join(lines + [line]) == Join(lines) + "\n" + line
  {
    assert (lines + [line])[..|lines|] == lines;
  }

  lemma JoinHead(begin: string, titles: string, ruler: string)
    ensures Join([begin, "", titles, ruler]) == begin + ("" + "\n" + "" + "\n" + titles + "\n" + ruler)
  {
    assert Join([begin]) == begin;
    JoinOne([begin], "");
    JoinOne([begin, ""], titles);
    JoinOne([begin, "", titles], ruler);
    assert [begin] + [""] == [begin, ""] && [begin, ""] + [titles] == [begin, "", titles];
    assert [begin, "", titles] + [ruler] == [begin, "", titles, ruler];
  }

  lemma AddRow(lines: seq<string>, begin: string, vars: seq<EnvVar>, v: EnvVar)
    requires lines != [] && Join(lines) == begin + Body(vars)
    ensures Join(lines + [Row(v)]) == begin + Body(vars + [v])
  {
    hide TITLES, RULER, Row, Join;
    JoinOne(lines, Row(v));
    assert (vars + [v])[..|vars|] == vars;
    assert begin + Body(vars) + "\n" + Row(v) == begin + (Body(vars) + "\n" + Row(v));
  }

  lemma JoinTail(lines: seq<string>, begin: string, body: string, end: string)
    requires lines != [] && Join(lines) == begin + body
    ensures Join(lines + [""] + [end]) == begin + (body + "\n" + "" + "\n") + end
  {
    hide Join;
    JoinOne(lines, "");
    JoinOne(lines + [""], end);
    assert begin + body + "\n" + "" + "\n" + end == begin + (body + "\n" + "" + "\n") + end;
  }

  /** The cells of a line, between its bars. */
  function Cells(line: string): (cells: seq<string>)
    ensures cells != []
  {
    if line == "" then [""]
    else
      var rest := Cells(line[1..]);
      if line[0] == '|' then [""] + rest else [[line[0]] + rest[0]] + rest[1..]
  }

  lemma {:induction false} CellsSplit(cell: string, rest: string)
    requires '|' !in cell
    ensures Cells(cell + ['|'] + rest) == [cell] + Cells(rest)
  {
    var line := cell + ['|'] + rest;
    if cell == "" {
      assert line[1..] == rest;
    } else {
      CellsSplit(cell[1..], rest);
      assert line[1..] == cell[1..] + ['|'] + rest;
      assert [line[0]] + cell[1..] == cell;
    }
  }

  lemma LastCell()
    ensures Cells("") == [""]
  {
  }

  /** Each field of a variable stands under its title, if none of them has a bar in it. */
  lemma CellsAreUnderTheirTitles(v: EnvVar)
    requires '|' !in v.name && '|' !in v.typ && '|' !in v.default
    ensures Cells(TITLES) == ["", " Env var ", " Type ", " Default ", " Source ", ""]
    ensures Cells(Row(v)) == ["", " `" + v.name + "` ", " `" + v.typ + "` ", " " + v.default + " ",
                              " `config/settings/base.py:" + Decimal(v.line) + "` ", ""]
  {
    TitleCells();
    RowCells(v);
  }

  lemma TitleCells()
    ensures Cells(TITLES) == ["", " Env var ", " Type ", " Default ", " Source ", ""]
  {
    hide Cells;
    TitlesRegrouped(" Env var ", " Type ", " Default ", " Source ");
    NoBars();
    FiveCells(" Env var ", " Type ", " Default ", " Source ");
  }

  lemma NoBars()
    ensures '|' !in " Env var " && '|' !in " Type " && '|' !in " Default " && '|' !in " Source "
  {
  }

  lemma TitlesRegrouped(a: string, b: string, c: string, d: string)
    ensures "|" + a + "|" + b + "|" + c + "|" + d + "|"
            == "" + ['|'] + (a + ['|'] + (b + ['|'] + (c + ['|'] + (d + ['|'] + ""))))
  {
  }

  lemma FiveCells(a: string, b: string, c: string, d: string)
    requires '|' !in a && '|' !in b && '|' !in c && '|' !in d
    ensures Cells("" + ['|'] + (a + ['|'] + (b + ['|'] + (c + ['|'] + (d + ['|'] + ""))))) == ["", a, b, c, d, ""]
  {
    hide Cells;
    LastCell();
    CellsSplit(d, "");
    CellsSplit(c, d + ['|'] + "");
    CellsSplit(b, c + ['|'] + (d + ['|'] + ""));
    CellsSplit(a, b + ['|'] + (c + ['|'] + (d + ['|'] + "")));
    CellsSplit("", a + ['|'] + (b + ['|'] + (c + ['|'] + (d + ['|'] + ""))));
  }

  lemma RowCells(v: EnvVar)
    requires '|' !in v.name && '|' !in v.typ && '|' !in v.default
    ensures Cells(Row(v)) == ["", " `" + v.name + "` ", " `" + v.typ + "` ", " " + v.default + " ",
                              " `config/settings/base.py:" + Decimal(v.line) + "` ", ""]
  {
    var file := "`config/settings/base.py:";
    DecimalHasDigits(v.line);
    assert '|' !in file;
    hide Decimal;
    var digits := Decimal(v.line);
    RowRegrouped(v.name, v.typ, v.default, file, digits);
    FiveCells(" `" + v.name + "` ", " `" + v.typ + "` ", " " + v.default + " ", " " + file + digits + "` ");
    assert " " + file == " `config/settings/base.py:";
  }

  lemma RowRegrouped(name: string, typ: string, default: string, file: string, digits: string)
    ensures "| " + ("`" + name + "` | " + ("`" + typ + "` | " + (default + " | " + (file + digits + "` |"))))
            == "" + ['|'] + ((" `" + name + "` ") + ['|'] + ((" `" + typ + "` ") + ['|'] + ((" " + default + " ") + ['|']
               + ((" " + file + digits + "` ") + ['|'] + ""))))
  {
  }

  // ---------------------------------------------------------------- the literals

  predicate Plain(s: string) {
    forall k :: 0 <= k < |s| ==> s[k] != '<' && s[k] != '\r'
  }

  predicate PlainLine(s: string) {
    forall k :: 0 <= k < |s| ==> s[k] != '<' && s[k] != '\r' && s[k] != '\n'
  }

  lemma BeginSubject()
    ensures PlainLine(BEGIN_SUBJECT1) && PlainLine(BEGIN_SUBJECT2)
  {
  }

  lemma BeginSource()
    ensures PlainLine(BEGIN_SOURCE1) && PlainLine(BEGIN_SOURCE2)
  {
  }

  lemma BeginTail()
    ensures BEGIN[1..] == BEGIN_SUBJECT1 + BEGIN_SUBJECT2 + BEGIN_SOURCE1 + BEGIN_SOURCE2
  {
    hide BEGIN_SUBJECT1, BEGIN_SUBJECT2, BEGIN_SOURCE1, BEGIN_SOURCE2;
  }

  lemma BeginChars()
    ensures |BEGIN| > 5 && BEGIN[0] == '<' && BEGIN[5] == 'B' && BEGIN[|BEGIN| - 1] == '>'
  {
  }

  lemma EndChars()
    ensures |END| > 5 && END[0] == '<' && END[5] == 'E' && PlainLine(END[1..])
    ensures '<' !in END[1..] && '\n' !in END && '\r' !in END
  {
  }

  lemma MarkersAreProper()
    ensures Proper(MARKERS)
  {
    hide BEGIN_SUBJECT1, BEGIN_SUBJECT2, BEGIN_SOURCE1, BEGIN_SOURCE2;
    BeginSubject();
    BeginSource();
    BeginTail();
    BeginChars();
    EndChars();
    hide BEGIN, END;
    assert PlainLine(BEGIN[1..]);
    assert BEGIN == [BEGIN[0]] + BEGIN[1..];
  }

  lemma HeaderIsPlain()
    ensures Plain(HEADER) && '<' !in HEADER && '\r' !in HEADER
  {
    HeaderTop();
    HeaderMiddle();
    HeaderBottom();
    hide LINE1, LINE2A, LINE2B, LINE3, LINE4A, LINE4B, LINE5A, LINE5B, LINE6A, LINE6B;
    hide Plain;
    PlainConcat(LINE1, LINE2A);
    PlainConcat(LINE1 + LINE2A, LINE2B);
    PlainConcat(LINE1 + LINE2A + LINE2B, LINE3);
    PlainConcat(LINE1 + LINE2A + LINE2B + LINE3, LINE4A);
    PlainConcat(LINE1 + LINE2A + LINE2B + LINE3 + LINE4A, LINE4B);
    PlainConcat(LINE1 + LINE2A + LINE2B + LINE3 + LINE4A + LINE4B, LINE5A);
    PlainConcat(LINE1 + LINE2A + LINE2B + LINE3 + LINE4A + LINE4B + LINE5A, LINE5B);
    PlainConcat(LINE1 + LINE2A + LINE2B + LINE3 + LINE4A + LINE4B + LINE5A + LINE5B, LINE6A);
    PlainConcat(LINE1 + LINE2A + LINE2B + LINE3 + LINE4A + LINE4B + LINE5A + LINE5B + LINE6A, LINE6B);
    PlainMeans(HEADER);
  }

  lemma PlainConcat(a: string, b: string)
    requires Plain(a) && Plain(b)
    ensures Plain(a + b)
  {
  }

  lemma PlainMeans(s: string)
    requires Plain(s)
    ensures '<' !in s && '\r' !in s
  {
  }

  lemma HeaderTop()
    ensures Plain(LINE1) && Plain(LINE2A) && Plain(LINE2B) && Plain(LINE3)
  {
  }

  lemma HeaderMiddle()
    ensures Plain(LINE4A) && Plain(LINE4B)
  {
  }

  lemma HeaderBottom()
    ensures Plain(LINE5A) && Plain(LINE5B) && Plain(LINE6A) && Plain(LINE6B)
  {
  }

  // ---------------------------------------------------------------- when a table is well marked

  lemma {:induction false} BodyIsFreeIff(vars: seq<EnvVar>)
    ensures Contains(Body(vars), END) <==> exists i :: 0 <= i < |vars| && Contains(Row(vars[i]), END)
  {
    hide Contains, Row;
    EndChars();
    hide END;
    if vars == [] {
      BareTableIsFree();
    } else {
      var front, last := vars[..|vars| - 1], vars[|vars| - 1];
      BodyIsFreeIff(front);
      ContainsAcross(Body(front), '\n', Row(last), END);
      assert forall i :: 0 <= i < |front| ==> vars[i] == front[i];
    }
  }

  lemma BareTableIsFree()
    ensures !Contains(Body([]), END)
  {
    hide Contains;
    EndChars();
    BareLines();
    hide END, TITLES, RULER;
    AbsentWithoutFirst("", END);
    AbsentWithoutFirst(TITLES, END);
    AbsentWithoutFirst(RULER, END);
    ContainsAcross("", '\n', "", END);
    ContainsAcross("" + "\n" + "", '\n', TITLES, END);
    ContainsAcross("" + "\n" + "" + "\n" + TITLES, '\n', RULER, END);
  }

  lemma BareLines()
    ensures Plain(TITLES) && Plain(RULER)
    ensures '<' !in TITLES && '<' !in RULER && '\r' !in TITLES && '\r' !in RULER
  {
  }

  /** The rows of a table hold the end marker exactly when one row does. */
  lemma RowsAreFreeIff(vars: seq<EnvVar>)
    ensures Contains(Rows(vars), END) <==> exists i :: 0 <= i < |vars| && Contains(Row(vars[i]), END)
  {
    hide Contains, Row, Body;
    EndChars();
    hide END;
    AbsentWithoutFirst("", END);
    ContainsAcross(Body(vars), '\n', "", END);
    ContainsAcross(Body(vars) + "\n" + "", '\n', "", END);
    assert Body(vars) + "\n" + "" + "\n" + "" == Rows(vars);
    BodyIsFreeIff(vars);
  }

  /** A rendered table ends at its own last line, the first end marker in it, exactly when no variable is marked. */
  lemma TableIsGoodIff(vars: seq<EnvVar>)
    ensures GoodRows(MARKERS, Rows(vars)) <==> !Marked(vars)
  {
    hide Contains, Row, Rows, BEGIN, END, Proper, GoodRows;
    MarkersAreProper();
    GoodRowsIff(MARKERS, Rows(vars));
    RowsAreFreeIff(vars);
    forall i | 0 <= i < |vars| ensures Contains(Row(vars[i]), END) <==> HoldsEnd(vars[i]) {
      RowIsFreeIff(vars[i]);
    }
  }

  /** A variable whose name, type or default has the end marker in it. */
  ghost predicate HoldsEnd(v: EnvVar) {
    Contains(v.name, END) || Contains(v.typ, END) || Contains(v.default, END)
  }

  ghost predicate Marked(vars: seq<EnvVar>) {
    exists i :: 0 <= i < |vars| && HoldsEnd(vars[i])
  }

  /** The end marker cannot arise from the punctuation of a row: it holds no backtick or bar, and no space at its edges. */
  lemma RowIsFreeIff(v: EnvVar)
    ensures Contains(Row(v), END) <==> HoldsEnd(v)
  {
    hide Contains, END, Ticked, SourceCell;
    EndSeparators();
    var source := SourceCell(v.line);
    var cells := Ticked(v.name, Ticked(v.typ, v.default + " | " + source));
    SourceIsFree(v.line);
    BarBefore(source);
    BarBefore(cells);
    TickedIsFreeIff(v.typ, v.default + " | " + source);
    TickedIsFreeIff(v.name, Ticked(v.typ, v.default + " | " + source));
    assert v.default + " | " + source == v.default + [' '] + ("| " + source);
    assert v.default + [' '] + ['|'] + (" " + source) == v.default + " | " + source;
    ContainsAcross(v.default + [' '], '|', " " + source, END);
    NotAtBack(v.default, ' ', END);
    NotAtFront(' ', source, END);
  }

  lemma EndSeparators()
    ensures END != "" && END[0] == '<' && END[|END| - 1] == '>' && '`' !in END && '|' !in END
  {
  }

  lemma SourceIsFree(line: nat)
    ensures !Contains(SourceCell(line), END)
  {
    hide Contains;
    EndSeparators();
    DecimalHasDigits(line);
    assert '<' !in "`config/settings/base.py:";
    hide END, Decimal;
    AbsentWithoutFirst(SourceCell(line), END);
  }

  lemma BarBefore(s: string)
    ensures Contains("| " + s, END) <==> Contains(s, END)
  {
    hide Contains;
    EndSeparators();
    hide END;
    assert "" + ['|'] + ([' '] + s) == "| " + s;
    AbsentWithoutFirst("", END);
    ContainsAcross("", '|', [' '] + s, END);
    NotAtFront(' ', s, END);
  }

  lemma TickedIsFreeIff(field: string, rest: string)
    ensures Contains(Ticked(field, rest), END) <==> Contains(field, END) || Contains(rest, END)
  {
    hide Contains;
    EndSeparators();
    hide END;
    var tail := [' '] + ("| " + rest);
    assert Ticked(field, rest) == "" + ['`'] + (field + ['`'] + tail);
    AbsentWithoutFirst("", END);
    ContainsAcross("", '`', field + ['`'] + tail, END);
    ContainsAcross(field, '`', tail, END);
    NotAtFront(' ', "| " + rest, END);
    BarBefore(rest);
  }

  // ---------------------------------------------------------------- carriage returns

  /** A variable whose name, type or default has a carriage return in it. */
  predicate HoldsReturn(v: EnvVar) {
    '\r' in v.name || '\r' in v.typ || '\r' in v.default
  }

  predicate HasReturn(vars: seq<EnvVar>) {
    exists i :: 0 <= i < |vars| && HoldsReturn(vars[i])
  }

  lemma RowHasReturnIff(v: EnvVar)
    ensures '\r' in Row(v) <==> HoldsReturn(v)
  {
    SourceHasNoReturn(v.line);
    hide SourceCell;
  }

  lemma SourceHasNoReturn(line: nat)
    ensures '\r' !in SourceCell(line)
  {
    DecimalHasDigits(line);
    assert '\r' !in "`config/settings/base.py:";
    hide Decimal;
  }

  lemma {:induction false} BodyHasReturnIff(vars: seq<EnvVar>)
    ensures '\r' in Body(vars) <==> HasReturn(vars)
  {
    hide Row, HoldsReturn;
    BareLines();
    hide TITLES, RULER;
    if vars != [] {
      var front, last := vars[..|vars| - 1], vars[|vars| - 1];
      BodyHasReturnIff(front);
      RowHasReturnIff(last);
      assert forall i :: 0 <= i < |front| ==> vars[i] == front[i];
    }
  }

  lemma TableHasReturnIff(vars: seq<EnvVar>)
    ensures '\r' in Table(vars) <==> HasReturn(vars)
    ensures '\r' in Rows(vars) <==> HasReturn(vars)
  {
    hide Body, HasReturn;
    MarkersAreProper();
    hide BEGIN, END;
    BodyHasReturnIff(vars);
  }

  // ---------------------------------------------------------------- the two modes

  /** `render_full_doc`, for the text of the document or for none. */
  function Render(doc: Option<string>, vars: seq<EnvVar>): string {
    Splice(MARKERS, doc, HEADER, Table(vars))
  }

  function ReadFile(file: Option<string>): Option<string> {
    if file.Some? then Some(ReadText(file.value)) else None
  }

  /** `--write`: the file afterwards. */
  function Write(file: Option<string>, vars: seq<EnvVar>): Option<string> {
    Some(Render(ReadFile(file), vars))
  }

  /** `--check`: does it exit with zero? */
  predicate Check(file: Option<string>, vars: seq<EnvVar>) {
    file.Some? && ReadText(file.value) == Render(ReadFile(file), vars)
  }

  /** The file after `n` runs of `--write`. */
  function Writes(file: Option<string>, vars: seq<EnvVar>, n: nat): Option<string> {
    if n == 0 then file else Write(Writes(file, vars, n - 1), vars)
  }

  lemma RenderHasReturnIff(doc: Option<string>, vars: seq<EnvVar>)
    requires doc.Some? ==> '\r' !in doc.value
    ensures '\r' in Render(doc, vars) <==> HasReturn(vars)
  {
    hide BEGIN, END, HEADER, Splice, Table, HasReturn;
    HeaderIsPlain();
    TableHasReturnIff(vars);
    SplicedChars(MARKERS, doc, HEADER, Table(vars), '\r');
  }

  /** What is written is read back as it is, exactly if no variable has a carriage return. */
  lemma WrittenIsReadBackIff(file: Option<string>, vars: seq<EnvVar>)
    ensures ReadFile(Write(file, vars)) == Write(file, vars) <==> !HasReturn(vars)
  {
    hide Render, ReadText, HasReturn;
    if file.Some? {
      ReadHasNoReturn(file.value);
    }
    var out := Render(ReadFile(file), vars);
    RenderHasReturnIff(ReadFile(file), vars);
    ReadHasNoReturn(out);
  }

  /** With a carriage return in a variable the document never equals what was read, whatever was done before. */
  lemma ReturnFailsCheck(file: Option<string>, vars: seq<EnvVar>)
    requires HasReturn(vars)
    ensures !Check(file, vars)
  {
    hide Render, ReadText, HasReturn;
    if file.Some? {
      ReadHasNoReturn(file.value);
      RenderHasReturnIff(ReadFile(file), vars);
    }
  }

  lemma WrittenHasBoth(file: Option<string>, vars: seq<EnvVar>)
    ensures HasBoth(MARKERS, ReadFile(Write(file, vars)).value)
  {
    hide BEGIN, END, HEADER, Contains, Splice, Rows, ReadText, Block, Proper;
    MarkersAreProper();
    SplicedHasBoth(MARKERS, ReadFile(file), HEADER, Rows(vars));
    MarkersAreRead(Write(file, vars).value);
  }

  lemma MarkersAreRead(raw: string)
    ensures Contains(ReadText(raw), BEGIN) <==> Contains(raw, BEGIN)
    ensures Contains(ReadText(raw), END) <==> Contains(raw, END)
  {
    hide Contains, ReadText;
    MarkersAreProper();
    hide BEGIN, END;
    ContainsRead(raw, BEGIN);
    ContainsRead(raw, END);
  }

  /**
   A check after `n` writes passes exactly if no variable holds the end marker or a carriage return, and, after a single
   write, the file did not hold the begin marker without the end marker.
   */
  lemma WriteThenCheckIff(file: Option<string>, vars: seq<EnvVar>, n: nat)
    requires n >= 1
    ensures Check(Writes(file, vars, n), vars) <==>
            !Marked(vars) && !HasReturn(vars)
            && (n >= 2 || file.None? || !Contains(file.value, BEGIN) || Contains(file.value, END))
  {
    hide BEGIN, END, HEADER, Rows, Contains, Block, Splice, Proper, Marked, HasReturn, ReadText;
    var before := Writes(file, vars, n - 1);
    if HasReturn(vars) {
      ReturnFailsCheck(Writes(file, vars, n), vars);
    } else {
      WrittenIsReadBackIff(before, vars);
      WrittenSettlesIff(before, vars);
      if n == 1 {
        if file.Some? { MarkersAreRead(file.value); }
      } else {
        WrittenHasBoth(Writes(file, vars, n - 2), vars);
      }
    }
  }

  /** Rendering what was rendered, with nothing read in between. */
  lemma WrittenSettlesIff(file: Option<string>, vars: seq<EnvVar>)
    ensures var doc := ReadFile(file);
            Render(Some(Render(doc, vars)), vars) == Render(doc, vars) <==>
            !Marked(vars) && (doc.None? || !Contains(doc.value, BEGIN) || Contains(doc.value, END))
  {
    hide BEGIN, END, HEADER, Rows, Contains, Block, Splice, Proper, Marked, ReadText;
    MarkersAreProper();
    HeaderIsPlain();
    TableIsGoodIff(vars);
    GoodRowsIff(MARKERS, Rows(vars));
    IdempotentIff(MARKERS, ReadFile(file), HEADER, Rows(vars));
  }

  /** With an end marker in a variable the document grows with every write from the second on, and never settles. */
  lemma MarkedTablesGrow(file: Option<string>, vars: seq<EnvVar>, n: nat)
    requires n >= 2 && Marked(vars)
    ensures Writes(file, vars, n).Some? && Writes(file, vars, n + 1).Some?
    ensures |Writes(file, vars, n).value| < |Writes(file, vars, n + 1).value|
  {
    hide BEGIN, END, HEADER, Rows, Contains, Block, Splice, Proper, Marked, Excess, ReadText;
    var doc := ReadFile(Writes(file, vars, n - 1)).value;
    WrittenHasBoth(Writes(file, vars, n - 2), vars);
    ReadHasNoReturn(Writes(file, vars, n - 1).value);
    MarkersAreProper();
    TableIsGoodIff(vars);
    GoodRowsIff(MARKERS, Rows(vars));
    MarkersAreRead(Rows(vars));
    NoExcessIff(MARKERS, ReadText(Rows(vars)));
    GrowsAfterReading(MARKERS, doc, HEADER, Rows(vars));
  }

  /** What is read back of a block need not be the block, and its excess is left behind the next one. */
  lemma GrowsAfterReading(m: Markers, doc: string, header: string, rows: string)
    requires Proper(m) && HasBoth(m, doc) && '\r' !in doc && Excess(m, ReadText(rows)) != ""
    ensures var once := Splice(m, Some(doc), header, Block(m, rows));
            |once| < |Splice(m, Some(ReadText(once)), header, Block(m, rows))|
  {
    hide Splice, Contains, Excess, ReadText, FirstAt;
    var before, after := SplicedShape(m, doc, header, rows);
    ReadBlock(m, before, rows, after);
    BeginStays(m, before, rows, ReadText(rows), after);
    SpliceWhereBlockStands(m, before, ReadText(rows), after, header, Block(m, rows));
  }

  lemma BeginStays(m: Markers, before: string, rows: string, other: string, after: string)
    requires Proper(m) && FirstAt(before + Block(m, rows) + after, m.begin, |before|)
    ensures FirstAt(before + Block(m, other) + after, m.begin, |before|)
  {
    hide FirstAt, Proper;
    var s, t, n := before + Block(m, rows) + after, before + Block(m, other) + after, |before| + |m.begin|;
    assert s[..n] == before + m.begin == t[..n];
    FirstInPrefix(s, t, m.begin, |before|);
  }

  // ---------------------------------------------------------------- one input for each failure

  /** A default that quotes the end marker: no number of writes makes the check pass, not even from no document at all. */
  lemma MarkedDefaultNeverChecks(n: nat)
    requires n >= 1
    ensures var vars := [EnvVar("X", "'" + END + "'", "str", 1)];
            !Check(Writes(None, vars, n), vars)
  {
    hide BEGIN, Contains, Check, Writes;
    EndSeparators();
    hide END;
    var vars := [EnvVar("X", "'" + END + "'", "str", 1)];
    HoldsItsEnd("'", END);
    NotAtBack("'" + END, '\'', END);
    assert HoldsEnd(vars[0]);
    WriteThenCheckIff(None, vars, n);
  }

  /** A name with a carriage return, which only a default would have escaped: the same. */
  lemma ReturnInNameNeverChecks(file: Option<string>, n: nat)
    ensures var vars := [EnvVar("X\rY", "\U{2014}", "str", 1)];
            !Check(Writes(file, vars, n), vars)
  {
    hide Check, Writes;
    var vars := [EnvVar("X\rY", "\U{2014}", "str", 1)];
    assert "X\rY"[1] == '\r';
    assert HoldsReturn(vars[0]);
    ReturnFailsCheck(Writes(file, vars, n), vars);
  }

  /** A document that is only the begin marker: the check after one write fails, whatever the variables. */
  lemma HalfBlockFailsCheck(vars: seq<EnvVar>)
    ensures !Check(Writes(Some(BEGIN), vars, 1), vars)
  {
    hide Contains, Check, Writes;
    MarkersAreProper();
    BeginHasNoEnd(MARKERS);
    hide BEGIN, END;
    HoldsItsEnd("", BEGIN);
    assert "" + BEGIN == BEGIN;
    WriteThenCheckIff(Some(BEGIN), vars, 1);
  }

  /** Writing where there is no document, and then again for other variables: the header stands before the new table. */
  lemma HeaderIsWrittenOnce(vars: seq<EnvVar>, later: seq<EnvVar>)
    requires !Marked(vars) && !HasReturn(vars)
    ensures Write(Write(None, vars), later) == Some(HEADER + Table(later) + "\n")
  {
    hide BEGIN, END, HEADER, Rows, Contains, Block, Splice, Proper, Marked, HasReturn, ReadText;
    MarkersAreProper();
    HeaderIsPlain();
    TableIsGoodIff(vars);
    GoodRowsIff(MARKERS, Rows(vars));
    WrittenIsReadBackIff(None, vars);
    HeaderIsKept(MARKERS, HEADER, Rows(vars), HEADER, Table(later));
  }

  /** The markers in the wrong order: the prose behind them is gone after one write. */
  lemma WrongOrderLosesProse(vars: seq<EnvVar>)
    ensures Write(Some(END + BEGIN + "prose"), vars) == Some(END + Table(vars))
  {
    hide BEGIN, Splice, ReadText, Table, Contains;
    MarkersAreProper();
    EndChars();
    hide END, Proper;
    ProseIsPlain();
    AbsentWithoutFirst("prose", END);
    WrongOrderDrops(MARKERS, "prose", HEADER, Table(vars));
    BeginHasNoReturn();
    ReadHasNoReturn(END + BEGIN + "prose");
  }

  lemma ProseIsPlain()
    ensures '<' !in "prose" && '\r' !in "prose"
  {
  }

  lemma BeginHasNoReturn()
    ensures '\r' !in BEGIN && '\r' !in END
  {
    MarkersAreProper();
  }
}
