/**
 * Texts as other programs write them: cells bare or enclosed in quotes, lines ended by LF or by CR LF, with or
 * without a BOM in front.
 */
module CsvPlain {
  import opened Common
  import opened Csv

  datatype Cell = Bare(text: Text) | Enclosed(text: Text)

  /** A bare cell holds no quote, comma, CR or LF. */
  predicate Fits(c: Cell) {
    c.Bare? ==> forall k :: 0 <= k < |c.text| ==> c.text[k] !in {0x22, 0x2C, 0x0D, 0x0A}
  }

  /** Quotes are doubled between quotes. */
  function Doubled(text: Text): Text {
    if text == [] then []
    else Doubled(Init(text)) + (if Last(text) == 0x22 then [0x22, 0x22] else [Last(text)])
  }

  function Spell(c: Cell): Text {
    match c
    case Bare(text) => text
    case Enclosed(text) => [0x22] + Doubled(text) + [0x22]
  }

  function Line(row: seq<Cell>): Text {
    if row == [] then [] else (if |row| == 1 then [] else Line(Init(row)) + [0x2C]) + Spell(Last(row))
  }

  function Lines(table: seq<seq<Cell>>, end: Text): Text {
    if table == [] then [] else (if |table| == 1 then [] else Lines(Init(table), end) + end) + Line(Last(table))
  }

  function Texts(row: seq<Cell>): (r: seq<Text>)
    ensures |r| == |row| && forall k :: 0 <= k < |row| ==> r[k] == row[k].text
  {
    seq(|row|, k requires 0 <= k < |row| => row[k].text)
  }

  function Contents(table: seq<seq<Cell>>): (r: Table)
    ensures |r| == |table| && forall k :: 0 <= k < |table| ==> r[k] == Texts(table[k])
  {
    seq(|table|, k requires 0 <= k < |table| => Texts(table[k]))
  }

  ghost predicate RowFits(row: seq<Cell>) {
    forall k :: 0 <= k < |row| ==> Fits(row[k])
  }

  ghost predicate AllFit(table: seq<seq<Cell>>) {
    forall k :: 0 <= k < |table| ==> RowFits(table[k])
  }

  lemma {:induction false} DoubledIsEscape(text: Text)
    ensures Doubled(text) == Escape(text)
  {
    if text != [] {
      DoubledIsEscape(Init(text));
      EscapeLast(text);
    }
  }

  lemma {:induction false} EscapeLast(text: Text)
    requires text != []
    ensures Escape(text) == Escape(Init(text)) + (if Last(text) == 0x22 then [0x22, 0x22] else [Last(text)])
  {
    if |text| == 1 {
      assert Init(text) == [] && text[1..] == [];
    } else {
      EscapeLast(text[1..]);
      assert Init(text)[1..] == Init(text[1..]) && Last(text[1..]) == Last(text);
    }
  }

  lemma {:induction false} FeedBare(s: Scan, text: Text)
    requires s.mode == Plain && Fits(Bare(text))
    ensures FeedAll(s, text) == s.(cell := s.cell + text)
    decreases |text|
  {
    if text == [] {
      assert s.cell + text == s.cell;
    } else {
      assert text[0] !in {0x22, 0x2C, 0x0D, 0x0A};
      assert Feed(s, text[0]) == s.(cell := s.cell + [text[0]]);
      FeedBare(s.(cell := s.cell + [text[0]]), text[1..]);
      assert s.cell + [text[0]] + text[1..] == s.cell + text;
    }
  }

  lemma FeedSpelled(s: Scan, c: Cell)
    requires s.mode == Plain && s.cell == [] && Fits(c)
    ensures FeedAll(s, Spell(c)) == s.(mode := if c.Bare? then Plain else Pending, cell := c.text)
  {
    hide FeedAll, Feed, Escape, Doubled;
    match c
    case Bare(text) => FeedBare(s, text);
    case Enclosed(text) =>
      DoubledIsEscape(text);
      FeedCell(s, text);
  }

  lemma FeedComma(s: Scan)
    requires s.mode != Quoted
    ensures FeedAll(s, [0x2C]) == Scan(Plain, [], s.row + [s.cell], s.rows)
  {
    FeedOne(s, 0x2C);
  }

  lemma {:induction false} FeedSpelledRow(s: Scan, row: seq<Cell>)
    requires s.mode == Plain && s.cell == [] && s.row == [] && RowFits(row)
    ensures EndsLine(FeedAll(s, Line(row)), Texts(row)) && FeedAll(s, Line(row)).rows == s.rows
  {
    hide FeedAll, Feed, Spell, Fits;
    if row == [] {
      FeedNothing(s);
    } else if |row| == 1 {
      FeedSpelled(s, row[0]);
      assert Line(row) == Spell(row[0]);
      assert Texts(row) == [row[0].text];
    } else {
      FeedSpelledRow(s, Init(row));
      var before := Line(Init(row));
      var e := FeedAll(s, before);
      FeedConcat(s, before + [0x2C], Spell(Last(row)));
      FeedConcat(s, before, [0x2C]);
      FeedComma(e);
      FeedSpelled(Scan(Plain, [], e.row + [e.cell], e.rows), Last(row));
      assert Texts(row) == Texts(Init(row)) + [Last(row).text];
    }
  }

  lemma FeedNothing(s: Scan)
    ensures FeedAll(s, []) == s
  {
  }

  predicate IsEnd(end: Text) {
    end == [0x0A] || end == [0x0D, 0x0A]
  }

  /** Either line end pushes the row. */
  lemma FeedEnd(s: Scan, row: seq<Text>, end: Text)
    requires EndsLine(s, row) && IsEnd(end)
    ensures var next := FeedAll(s, end);
            next.mode == Plain && next.cell == [] && next.row == []
              && NonBlank(next.rows) == NonBlank(s.rows) + NonBlank([row])
  {
    hide FeedAll, NonBlank;
    if end == [0x0A] {
      FeedOne(s, 0x0A);
      NewLine(s, row);
    } else {
      FeedConcat(s, [0x0D], [0x0A]);
      assert [0x0D] + [0x0A] == end;
      FeedOne(s, 0x0D);
      FeedOne(Feed(s, 0x0D), 0x0A);
      NewLine(Feed(s, 0x0D), row);
    }
  }

  lemma {:induction false} FeedLines(table: seq<seq<Cell>>, end: Text)
    requires table != [] && AllFit(table) && IsEnd(end)
    ensures var s := FeedAll(START, Lines(table, end));
            EndsLine(s, Texts(Last(table))) && NonBlank(s.rows) == NonBlank(Contents(Init(table)))
  {
    hide FeedAll, NonBlank, EndsLine, RowFits;
    if |table| == 1 {
      assert Lines(table, end) == Line(table[0]);
      FeedSpelledRow(START, table[0]);
      assert Contents(Init(table)) == [];
    } else {
      FeedLines(Init(table), end);
      var before := Lines(Init(table), end);
      var s := FeedAll(START, before);
      FeedConcat(START, before + end, Line(Last(table)));
      FeedConcat(START, before, end);
      FeedEnd(s, Texts(Last(Init(table))), end);
      FeedSpelledRow(FeedAll(s, end), Last(table));
      ContentsLast(Init(table));
    }
  }

  lemma ContentsLast(table: seq<seq<Cell>>)
    requires table != []
    ensures NonBlank(Contents(table)) == NonBlank(Contents(Init(table))) + NonBlank([Texts(Last(table))])
  {
    hide NonBlank;
    assert Contents(table) == Contents(Init(table)) + [Texts(Last(table))];
    NonBlankConcat(Contents(Init(table)), [Texts(Last(table))]);
  }

  /**
   * Reading gives the cells without the blank rows, however each of them is spelled and whichever way lines end. A
   * BOM in front of the text is not part of the first cell.
   */
  lemma PlainRoundTrip(table: seq<seq<Cell>>, end: Text)
    requires AllFit(table) && IsEnd(end)
    ensures var text := Lines(table, end);
            && Parse([0xFEFF] + text) == Some(NonBlank(Contents(table)))
            && (text != [] && text[0] != 0xFEFF ==> Parse(text) == Some(NonBlank(Contents(table))))
            && (text == [] ==> Parse(text) == Some([]))
  {
    hide FeedAll, NonBlank, EndsLine, Lines, AllFit;
    var text := Lines(table, end);
    FeedNothing(START);
    NonBlankEmpty();
    assert ([0xFEFF] + text)[1..] == text;
    if table == [] {
      NoLines(end);
    } else {
      FeedLines(table, end);
      LastLine(FeedAll(START, text), Texts(Last(table)));
      ContentsLast(table);
    }
  }

  lemma NoLines(end: Text)
    ensures Lines([], end) == [] && Contents([]) == []
  {
  }

  /** The quoted writer of the product table is the one that encloses every cell and ends lines with LF. */
  lemma {:induction false} WriterLaw(table: Table)
    ensures WriteCsv(table) == Lines(AllEnclosed(table), [0x0A])
  {
    if table != [] {
      RowLaw(Last(table));
      assert AllEnclosed(table) == AllEnclosed(Init(table)) + [Enclose(Last(table))];
      WriterLaw(Init(table));
    }
  }

  function Enclose(row: seq<Text>): (r: seq<Cell>)
    ensures |r| == |row| && forall k :: 0 <= k < |row| ==> r[k] == Enclosed(row[k])
  {
    seq(|row|, k requires 0 <= k < |row| => Enclosed(row[k]))
  }

  function AllEnclosed(table: Table): (r: seq<seq<Cell>>)
    ensures |r| == |table| && forall k :: 0 <= k < |table| ==> r[k] == Enclose(table[k])
  {
    seq(|table|, k requires 0 <= k < |table| => Enclose(table[k]))
  }

  lemma {:induction false} RowLaw(row: seq<Text>)
    ensures WriteRow(row) == Line(Enclose(row))
  {
    if row != [] {
      DoubledIsEscape(Last(row));
      assert Enclose(row) == Enclose(Init(row)) + [Enclosed(Last(row))];
      RowLaw(Init(row));
    }
  }

  // ----- blank cells -----

  predicate AnyQuoteMark(c: CodeUnit) {
    c in {0x22, 0x27, 0x201C, 0x201D}
  }

  const WHITE: set<CodeUnit> := {
    0x09, 0x0A, 0x0B, 0x0C, 0x0D, 0x20, 0xA0, 0x1680, 0x2000, 0x2001, 0x2002, 0x2003, 0x2004, 0x2005, 0x2006, 0x2007,
    0x2008, 0x2009, 0x200A, 0x2028, 0x2029, 0x202F, 0x205F, 0x3000, 0xFEFF}

  ghost predicate MarksAroundWhite(s: Text, i: nat, j: nat) {
    && i <= j <= |s| && (forall k :: 0 <= k < i || j <= k < |s| ==> AnyQuoteMark(s[k]))
    && forall k :: i <= k < j ==> s[k] in WHITE
  }

  /** A row is dropped if and only if each of its cells is, after one BOM, quote marks around white space. */
  ghost predicate LooksBlank(cell: Text) {
    exists i, j :: MarksAroundWhite(WithoutBom(cell), i, j)
  }

  function WithoutBom(cell: Text): Text {
    if cell != [] && cell[0] == 0xFEFF then cell[1..] else cell
  }

  lemma WhiteLaw(c: CodeUnit)
    ensures IsWhite(c) <==> c in WHITE
    ensures IsQuoteMark(c) <==> AnyQuoteMark(c)
  {
  }

  lemma BlankCellLaw(cell: Text)
    ensures |CleanCell(cell)| == 0 <==> LooksBlank(cell)
  {
    hide IsWhite, IsQuoteMark, AnyQuoteMark, WHITE, CleanCell, AllOf, MarksAroundWhite;
    BlankCellShape(cell);
    var s := DropBom(cell);
    assert s == WithoutBom(cell);
    if LooksBlank(cell) {
      var i: nat, j: nat :| MarksAroundWhite(s, i, j);
      MarksAsSlices(s, i, j);
    }
    if CleanCell(cell) == [] {
      var i: nat, j: nat :| i <= j <= |s| && AllOf(IsQuoteMark, s[..i]) && AllOf(IsWhite, s[i..j])
                            && AllOf(IsQuoteMark, s[j..]);
      SlicesAsMarks(s, i, j);
    }
  }

  lemma MarksAsSlices(s: Text, i: nat, j: nat)
    requires MarksAroundWhite(s, i, j)
    ensures i <= j <= |s| && AllOf(IsQuoteMark, s[..i]) && AllOf(IsWhite, s[i..j]) && AllOf(IsQuoteMark, s[j..])
  {
    hide IsWhite, IsQuoteMark, AnyQuoteMark, WHITE;
    forall c: CodeUnit ensures (IsWhite(c) <==> c in WHITE) && (IsQuoteMark(c) <==> AnyQuoteMark(c)) { WhiteLaw(c); }
  }

  lemma SlicesAsMarks(s: Text, i: nat, j: nat)
    requires i <= j <= |s| && AllOf(IsQuoteMark, s[..i]) && AllOf(IsWhite, s[i..j]) && AllOf(IsQuoteMark, s[j..])
    ensures MarksAroundWhite(s, i, j)
  {
    hide IsWhite, IsQuoteMark, AnyQuoteMark, WHITE;
    forall c: CodeUnit ensures (IsWhite(c) <==> c in WHITE) && (IsQuoteMark(c) <==> AnyQuoteMark(c)) { WhiteLaw(c); }
    forall k | 0 <= k < i ensures AnyQuoteMark(s[k]) { assert s[..i][k] == s[k]; }
    forall k | j <= k < |s| ensures AnyQuoteMark(s[k]) { assert s[j..][k - j] == s[k]; }
    forall k | i <= k < j ensures s[k] in WHITE { assert s[i..j][k - i] == s[k]; }
  }

  /** The rows with some cell that does not look blank stay, in their order. */
  lemma KeptRowsLaw(table: Table, row: seq<Text>)
    ensures NonBlank([]) == []
    ensures NonBlank(table + [row]) == NonBlank(table) + (if forall k :: 0 <= k < |row| ==> LooksBlank(row[k]) then []
                                                          else [row])
  {
    hide NonBlank, LooksBlank, CleanCell;
    NonBlankEmpty();
    NonBlankConcat(table, [row]);
    NonBlankOne(row);
    forall k | 0 <= k < |row| ensures |CleanCell(row[k])| == 0 <==> LooksBlank(row[k]) { BlankCellLaw(row[k]); }
  }
}
