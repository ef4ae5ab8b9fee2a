/**
 * The CSV text that `downloadCsv` writes (apps/web/src/data/xianyu-material-pools.ts) and the parser that
 * reads product tables (apps/web/src/data/product-import.ts). Quoting follows section 2 of RFC 4180.
 */
module Csv {
  import opened Common

  /** A UTF-16 code unit: JavaScript strings are lists of these, surrogates included. */
  newtype CodeUnit = i: int | 0 <= i < 0x1_0000

  type Text = seq<CodeUnit>

  type Table = seq<seq<Text>>

  const QUOTE: CodeUnit := 0x22
  const COMMA: CodeUnit := 0x2C
  const LF: CodeUnit := 0x0A
  const CR: CodeUnit := 0x0D
  const BOM: CodeUnit := 0xFEFF

  // ----- writing -----

  /** Every quote is doubled. */
  function Escape(cell: Text): Text {
    if cell == [] then [] else (if cell[0] == QUOTE then [QUOTE, QUOTE] else [cell[0]]) + Escape(cell[1..])
  }

  function WriteCell(cell: Text): Text {
    [QUOTE] + Escape(cell) + [QUOTE]
  }

  function WriteRow(row: seq<Text>): Text {
    if row == [] then []
    else if |row| == 1 then WriteCell(row[0])
    else WriteRow(Init(row)) + [COMMA] + WriteCell(Last(row))
  }

  function WriteCsv(table: Table): Text {
    if table == [] then []
    else if |table| == 1 then WriteRow(table[0])
    else WriteCsv(Init(table)) + [LF] + WriteRow(Last(table))
  }

  // ----- blank rows -----

  function DropBom(s: Text): Text {
    if s != [] && s[0] == BOM then s[1..] else s
  }

  predicate IsQuoteMark(c: CodeUnit) {
    c == 0x22 || c == 0x27 || c == 0x201C || c == 0x201D
  }

  /** What String.prototype.trim removes. */
  predicate IsWhite(c: CodeUnit) {
    IsTrimmed(c as int)
  }

  function TrimBy(drop: CodeUnit -> bool, s: Text): Text {
    if s == [] then s
    else if drop(s[0]) then TrimBy(drop, s[1..])
    else if drop(Last(s)) then TrimBy(drop, Init(s))
    else s
  }

  function CleanCell(value: Text): Text {
    TrimBy(IsWhite, TrimBy(IsQuoteMark, DropBom(value)))
  }

  predicate BlankRow(row: seq<Text>) {
    forall k :: 0 <= k < |row| ==> |CleanCell(row[k])| == 0
  }

  function NonBlank(table: Table): Table {
    if table == [] then []
    else NonBlank(Init(table)) + (if BlankRow(Last(table)) then [] else [Last(table)])
  }

  ghost predicate AllOf(p: CodeUnit -> bool, s: Text) {
    forall k :: 0 <= k < |s| ==> p(s[k])
  }

  /** t is what is left of s when droppable units are taken off both ends. */
  ghost predicate IsMiddle(drop: CodeUnit -> bool, s: Text, t: Text, i: nat, j: nat) {
    && i <= j <= |s| && t == s[i..j] && AllOf(drop, s[..i]) && AllOf(drop, s[j..])
    && (i < j ==> !drop(s[i]) && !drop(s[j - 1]))
  }

  lemma MiddleAfterFirst(drop: CodeUnit -> bool, s: Text, t: Text, a: nat, b: nat)
    requires s != [] && drop(s[0]) && IsMiddle(drop, s[1..], t, a, b)
    ensures IsMiddle(drop, s, t, a + 1, b + 1)
  {
    assert s[1..][a..b] == s[a + 1..b + 1] && s[1..][b..] == s[b + 1..];
    assert s[..a + 1] == [s[0]] + s[1..][..a];
  }

  lemma MiddleBeforeLast(drop: CodeUnit -> bool, s: Text, t: Text, i: nat, j: nat)
    requires s != [] && drop(Last(s)) && IsMiddle(drop, Init(s), t, i, j)
    ensures IsMiddle(drop, s, t, i, j)
  {
    assert Init(s)[i..j] == s[i..j] && Init(s)[..i] == s[..i];
    assert s[j..] == Init(s)[j..] + [Last(s)];
  }

  lemma WholeMiddle(drop: CodeUnit -> bool, s: Text)
    requires s == [] || (!drop(s[0]) && !drop(Last(s)))
    ensures IsMiddle(drop, s, s, 0, |s|)
  {
  }

  lemma TrimStep(drop: CodeUnit -> bool, s: Text)
    ensures s != [] && drop(s[0]) ==> TrimBy(drop, s) == TrimBy(drop, s[1..])
    ensures s != [] && !drop(s[0]) && drop(Last(s)) ==> TrimBy(drop, s) == TrimBy(drop, Init(s))
    ensures s == [] || (!drop(s[0]) && !drop(Last(s))) ==> TrimBy(drop, s) == s
  {
  }

  lemma {:induction false} TrimByMiddle(drop: CodeUnit -> bool, s: Text) returns (i: nat, j: nat)
    ensures IsMiddle(drop, s, TrimBy(drop, s), i, j)
  {
    hide IsMiddle, TrimBy, AllOf;
    TrimStep(drop, s);
    if s != [] && drop(s[0]) {
      var a, b := TrimByMiddle(drop, s[1..]);
      MiddleAfterFirst(drop, s, TrimBy(drop, s), a, b);
      i, j := a + 1, b + 1;
    } else if s != [] && drop(Last(s)) {
      i, j := TrimByMiddle(drop, Init(s));
      MiddleBeforeLast(drop, s, TrimBy(drop, s), i, j);
    } else {
      i, j := 0, |s|;
      WholeMiddle(drop, s);
    }
  }

  lemma TrimByKeepsMiddle(drop: CodeUnit -> bool, s: Text) returns (i: nat, j: nat)
    ensures i <= j <= |s| && TrimBy(drop, s) == s[i..j] && AllOf(drop, s[..i]) && AllOf(drop, s[j..])
    ensures i < j ==> !drop(s[i]) && !drop(s[j - 1])
  {
    hide TrimBy, AllOf;
    i, j := TrimByMiddle(drop, s);
  }

  /** A blank cell is, after one BOM, quote marks around nothing but white space. */
  lemma BlankCellShape(value: Text)
    ensures CleanCell(value) == [] <==>
      exists i: nat, j: nat :: var s := DropBom(value);
        i <= j <= |s| && AllOf(IsQuoteMark, s[..i]) && AllOf(IsWhite, s[i..j]) && AllOf(IsQuoteMark, s[j..])
  {
    var s := DropBom(value);
    var i, j := TrimByKeepsMiddle(IsQuoteMark, s);
    var a, b := TrimByKeepsMiddle(IsWhite, s[i..j]);
    if CleanCell(value) == [] {
      assert a == b;
      assert s[i..j] == s[i..j][..a] + s[i..j][b..];
    }
    if m: nat, n: nat :|
      m <= n <= |s| && AllOf(IsQuoteMark, s[..m]) && AllOf(IsWhite, s[m..n]) && AllOf(IsQuoteMark, s[n..]) {
      MiddleIsWhite(s, i, j, m, n);
    }
  }

  lemma MiddleIsWhite(s: Text, i: nat, j: nat, m: nat, n: nat)
    requires i <= j <= |s| && m <= n <= |s|
    requires AllOf(IsQuoteMark, s[..m]) && AllOf(IsWhite, s[m..n]) && AllOf(IsQuoteMark, s[n..])
    requires i < j ==> !IsQuoteMark(s[i]) && !IsQuoteMark(s[j - 1])
    ensures AllOf(IsWhite, s[i..j])
  {
    if i < j {
      forall k | 0 <= k < m ensures IsQuoteMark(s[k]) { assert s[..m][k] == s[k]; }
      forall k | n <= k < |s| ensures IsQuoteMark(s[k]) { assert s[n..][k - n] == s[k]; }
      forall k | 0 <= k < j - i ensures IsWhite(s[i..j][k]) {
        assert s[m..n][i + k - m] == s[i..j][k];
      }
    }
  }

  // ----- reading, one unit at a time -----

  /** Pending: a quote has just been read inside a quoted stretch. */
  datatype Mode = Plain | Quoted | Pending

  datatype Scan = Scan(mode: Mode, cell: Text, row: seq<Text>, rows: Table)

  const START := Scan(Plain, [], [], [])

  function FeedPlain(s: Scan, c: CodeUnit): Scan {
    if c == QUOTE then s.(mode := Quoted)
    else if c == COMMA then Scan(Plain, [], s.row + [s.cell], s.rows)
    else if c == LF then Scan(Plain, [], [], s.rows + [s.row + [s.cell]])
    else if c == CR then s.(mode := Plain)
    else s.(mode := Plain, cell := s.cell + [c])
  }

  function Feed(s: Scan, c: CodeUnit): Scan {
    match s.mode
    case Plain => FeedPlain(s, c)
    case Quoted => if c == QUOTE then s.(mode := Pending) else s.(cell := s.cell + [c])
    case Pending => if c == QUOTE then s.(mode := Quoted, cell := s.cell + [QUOTE]) else FeedPlain(s, c)
  }

  function FeedAll(s: Scan, text: Text): Scan
    decreases |text|
  {
    if text == [] then s else FeedAll(Feed(s, text[0]), text[1..])
  }

  /** None when a quoted stretch is still open. */
  function Finish(s: Scan): Option<Table> {
    if s.mode == Quoted then None
    else if |s.cell| > 0 || |s.row| > 0 then Some(s.rows + [s.row + [s.cell]])
    else Some(s.rows)
  }

  /** The meaning of a CSV text: one pass with no look-ahead, blank rows dropped. */
  function Parse(text: Text): Option<Table> {
    match Finish(FeedAll(START, DropBom(text)))
    case None => None
    case Some(rows) => Some(NonBlank(rows))
  }

  /** Unless the next unit is a quote, a pending quote has closed its stretch. */
  lemma PendingIsPlain(s: Scan, rest: Text)
    requires s.mode == Plain && (rest == [] || rest[0] != QUOTE)
    ensures Finish(FeedAll(s.(mode := Pending), rest)) == Finish(FeedAll(s, rest))
  {
  }

  method DropBlankRows(rows: Table) returns (r: Table)
    ensures r == NonBlank(rows)
  {
    r := [];
    for k := 0 to |rows|
      invariant r == NonBlank(rows[..k])
    {
      assert Init(rows[..k + 1]) == rows[..k];
      if !BlankRow(rows[k]) { r := r + [rows[k]]; }
    }
    assert rows[..|rows|] == rows;
  }

  /** The index loop with its look-ahead of one unit; None is the thrown error. */
  method ParseCsv(text: Text) returns (r: Option<Table>)
    ensures r == Parse(text)
  {
    var source := DropBom(text);
    var rows: Table := [];
    var row: seq<Text> := [];
    var cell: Text := [];
    var quoted := false;
    var index := 0;
    while index < |source|
      invariant 0 <= index <= |source|
      invariant Finish(FeedAll(START, source))
             == Finish(FeedAll(Scan(if quoted then Quoted else Plain, cell, row, rows), source[index..]))
    {
      var c := source[index];
      ghost var rest := source[index..];
      ghost var s := Scan(if quoted then Quoted else Plain, cell, row, rows);
      assert rest[0] == c && rest[1..] == source[index + 1..];
      assert FeedAll(s, rest) == FeedAll(Feed(s, c), source[index + 1..]);
      if quoted {
        if c == QUOTE && index + 1 < |source| && source[index + 1] == QUOTE {
          assert rest[1..][1..] == source[index + 2..];
          cell := cell + [QUOTE];
          index := index + 1;
        } else if c == QUOTE {
          PendingIsPlain(s.(mode := Plain), source[index + 1..]);
          quoted := false;
        } else {
          cell := cell + [c];
        }
        index := index + 1;
        continue;
      }
      if c == QUOTE {
        quoted := true;
      } else if c == COMMA {
        row := row + [cell];
        cell := [];
      } else if c == LF {
        row := row + [cell];
        rows := rows + [row];
        row, cell := [], [];
      } else if c != CR {
        cell := cell + [c];
      }
      index := index + 1;
    }
    if quoted { return None; }
    if |cell| > 0 || |row| > 0 {
      row := row + [cell];
      rows := rows + [row];
    }
    var kept := DropBlankRows(rows);
    return Some(kept);
  }

  // ----- when parsing fails -----

  function Quotes(text: Text): nat {
    if text == [] then 0 else (if text[0] == QUOTE then 1 else 0) + Quotes(text[1..])
  }

  lemma {:induction false} OpenIffOdd(s: Scan, text: Text)
    ensures FeedAll(s, text).mode == Quoted <==> (Quotes(text) + (if s.mode == Quoted then 1 else 0)) % 2 == 1
    decreases |text|
  {
    if text != [] {
      OpenIffOdd(Feed(s, text[0]), text[1..]);
    }
  }

  /** On any text, parsing fails exactly when the number of quotes is odd. */
  lemma FailsIffQuotesOdd(text: Text)
    ensures Parse(text) == None <==> Quotes(text) % 2 == 1
  {
    OpenIffOdd(START, DropBom(text));
  }

  // ----- writing and reading back -----

  lemma {:induction false} FeedConcat(s: Scan, a: Text, b: Text)
    ensures FeedAll(s, a + b) == FeedAll(FeedAll(s, a), b)
    decreases |a|
  {
    if a == [] {
      assert a + b == b;
    } else {
      assert (a + b)[0] == a[0] && (a + b)[1..] == a[1..] + b;
      FeedConcat(Feed(s, a[0]), a[1..], b);
    }
  }

  lemma FeedOne(s: Scan, c: CodeUnit)
    ensures FeedAll(s, [c]) == Feed(s, c)
  {
  }

  lemma {:induction false} FeedEscaped(s: Scan, cell: Text)
    requires s.mode == Quoted
    ensures FeedAll(s, Escape(cell)) == s.(cell := s.cell + cell)
    decreases |cell|
  {
    if cell == [] {
      assert s.cell + cell == s.cell;
    } else {
      var first := if cell[0] == QUOTE then [QUOTE, QUOTE] else [cell[0]];
      FeedConcat(s, first, Escape(cell[1..]));
      FeedOne(s, cell[0]);
      FeedOne(s.(mode := Pending), QUOTE);
      assert [QUOTE, QUOTE][1..] == [QUOTE];
      assert FeedAll(s, first) == s.(cell := s.cell + [cell[0]]);
      FeedEscaped(s.(cell := s.cell + [cell[0]]), cell[1..]);
      assert s.cell + [cell[0]] + cell[1..] == s.cell + cell;
    }
  }

  lemma FeedCell(s: Scan, cell: Text)
    requires s.mode == Plain && s.cell == []
    ensures FeedAll(s, WriteCell(cell)) == s.(mode := Pending, cell := cell)
  {
    var inside := s.(mode := Quoted);
    FeedConcat(s, [QUOTE] + Escape(cell), [QUOTE]);
    FeedConcat(s, [QUOTE], Escape(cell));
    FeedOne(s, QUOTE);
    FeedEscaped(inside, cell);
    FeedOne(inside.(cell := cell), QUOTE);
  }

  lemma {:induction false} FeedRow(s: Scan, row: seq<Text>)
    requires s.mode == Plain && s.cell == [] && s.row == [] && row != []
    ensures FeedAll(s, WriteRow(row)) == Scan(Pending, Last(row), Init(row), s.rows)
  {
    if |row| == 1 {
      FeedCell(s, row[0]);
    } else {
      FeedRow(s, Init(row));
      var before := WriteRow(Init(row));
      FeedConcat(s, before + [COMMA], WriteCell(Last(row)));
      FeedConcat(s, before, [COMMA]);
      var after := FeedAll(s, before);
      FeedOne(after, COMMA);
      assert after.row + [after.cell] == Init(row);
      FeedCell(Feed(after, COMMA), Last(row));
    }
  }

  /** The scanner's rows after a whole line, and what `Finish` will make of the line it is in. */
  ghost predicate EndsLine(s: Scan, row: seq<Text>) {
    s.mode != Quoted && if row == [] then s.cell == [] && s.row == [] else s.row + [s.cell] == row
  }

  lemma FeedLine(s: Scan, row: seq<Text>)
    requires s.mode == Plain && s.cell == [] && s.row == []
    ensures EndsLine(FeedAll(s, WriteRow(row)), row) && FeedAll(s, WriteRow(row)).rows == s.rows
  {
    if row != [] { FeedRow(s, row); }
  }

  lemma NonBlankLast(t: Table)
    requires t != []
    ensures NonBlank(t) == NonBlank(Init(t)) + (if BlankRow(Last(t)) then [] else [Last(t)])
  {
  }

  lemma NonBlankEmpty()
    ensures NonBlank([]) == []
  {
  }

  lemma InitConcat(a: Table, b: Table)
    requires b != []
    ensures a + b != [] && Init(a + b) == a + Init(b) && Last(a + b) == Last(b)
  {
  }

  lemma {:induction false} NonBlankConcat(a: Table, b: Table)
    ensures NonBlank(a + b) == NonBlank(a) + NonBlank(b)
  {
    hide BlankRow, NonBlank;
    if b == [] {
      assert a + b == a;
      NonBlankEmpty();
    } else {
      var last := if BlankRow(Last(b)) then [] else [Last(b)];
      InitConcat(a, b);
      NonBlankConcat(a, Init(b));
      NonBlankLast(b);
      NonBlankLast(a + b);
      assert NonBlank(a + b) == (NonBlank(a) + NonBlank(Init(b))) + last == NonBlank(a) + (NonBlank(Init(b)) + last);
    }
  }

  lemma NonBlankOne(row: seq<Text>)
    ensures NonBlank([row]) == if BlankRow(row) then [] else [row]
    ensures BlankRow([]) && BlankRow([[]])
  {
    assert Init([row]) == [];
  }

  lemma NewLine(s: Scan, row: seq<Text>)
    requires EndsLine(s, row)
    ensures var next := Feed(s, LF);
            next.mode == Plain && next.cell == [] && next.row == []
              && NonBlank(next.rows) == NonBlank(s.rows) + NonBlank([row])
  {
    var pushed := if row == [] then [[]] else row;
    assert s.row + [s.cell] == pushed;
    assert Feed(s, LF).rows == s.rows + [pushed];
    NonBlankConcat(s.rows, [pushed]);
    NonBlankOne(row);
    NonBlankOne(pushed);
  }

  lemma LastLine(s: Scan, row: seq<Text>)
    requires EndsLine(s, row)
    ensures Finish(s).Some? && NonBlank(Finish(s).value) == NonBlank(s.rows) + NonBlank([row])
  {
    NonBlankOne(row);
    if |s.cell| > 0 || |s.row| > 0 {
      NonBlankConcat(s.rows, [row]);
    } else {
      assert row == [] || row == [[]];
    }
  }

  lemma {:induction false} FeedTable(table: Table)
    requires table != []
    ensures var s := FeedAll(START, WriteCsv(table));
            EndsLine(s, Last(table)) && NonBlank(s.rows) == NonBlank(Init(table))
  {
    if |table| == 1 {
      FeedLine(START, table[0]);
      assert Init(table) == [];
    } else {
      FeedTable(Init(table));
      var before := WriteCsv(Init(table));
      var s := FeedAll(START, before);
      FeedConcat(START, before + [LF], WriteRow(Last(table)));
      FeedConcat(START, before, [LF]);
      FeedOne(s, LF);
      NewLine(s, Last(Init(table)));
      FeedLine(Feed(s, LF), Last(table));
      NonBlankOne(Last(Init(table)));
      assert NonBlank(Init(table)) == NonBlank(Init(Init(table))) + NonBlank([Last(Init(table))]);
    }
  }

  lemma {:induction false} WrittenStartsPlain(table: Table)
    ensures WriteCsv(table) == [] || WriteCsv(table)[0] == QUOTE || WriteCsv(table)[0] == LF
  {
    if |table| > 1 {
      WrittenStartsPlain(Init(table));
      RowStartsQuoted(Last(table));
    } else if |table| == 1 {
      RowStartsQuoted(table[0]);
    }
  }

  lemma {:induction false} RowStartsQuoted(row: seq<Text>)
    ensures row == [] || (WriteRow(row) != [] && WriteRow(row)[0] == QUOTE)
  {
    if |row| > 1 { RowStartsQuoted(Init(row)); }
  }

  /**
   * Reading back what was written for any table gives the table without its blank rows, whatever quotes,
   * commas, line breaks or BOMs its cells hold.
   */
  lemma RoundTrip(table: Table)
    ensures Parse(WriteCsv(table)) == Some(NonBlank(table))
  {
    WrittenStartsPlain(table);
    assert DropBom(WriteCsv(table)) == WriteCsv(table);
    if table != [] {
      FeedTable(table);
      var s := FeedAll(START, WriteCsv(table));
      LastLine(s, Last(table));
      NonBlankOne(Last(table));
    }
  }

  lemma {:induction false} NonBlankIdempotent(table: Table)
    ensures NonBlank(NonBlank(table)) == NonBlank(table)
  {
    if table != [] {
      NonBlankIdempotent(Init(table));
      NonBlankConcat(NonBlank(Init(table)), if BlankRow(Last(table)) then [] else [Last(table)]);
      NonBlankOne(Last(table));
    }
  }

  /** Writing a parsed table is a normal form: reading it again gives the same table, so exports survive re-import. */
  lemma ReimportIsStable(text: Text)
    requires Parse(text).Some?
    ensures Parse(WriteCsv(Parse(text).value)) == Parse(text)
  {
    var rows := Finish(FeedAll(START, DropBom(text))).value;
    RoundTrip(NonBlank(rows));
    NonBlankIdempotent(rows);
  }
}
