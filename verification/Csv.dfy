/** The CSV of an accounting export, and a parser for the grammar of section 2 of
    RFC 4180; the column labels of the workbook. */
module Csv {

  const QUOTE: char := '"'
  const COMMA: char := ','
  const CR: char := '\r'
  const LF: char := '\n'

  // ---- writing ----

  /** A cell that a spreadsheet could take for a formula gets an apostrophe. */
  function Guarded(raw: string): string {
    if |raw| > 0 && raw[0] in "=+-@\t\r" then ['\''] + raw else raw
  }

  predicate Special(c: char) { c == QUOTE || c == COMMA || c == CR || c == LF }

  predicate HasSpecial(text: string) { exists k :: 0 <= k < |text| && Special(text[k]) }

  function Doubled(text: string): string {
    if text == [] then [] else (if text[0] == QUOTE then [QUOTE, QUOTE] else [text[0]]) + Doubled(text[1..])
  }

  function Cell(raw: string): string {
    var text := Guarded(raw);
    if HasSpecial(text) then [QUOTE] + Doubled(text) + [QUOTE] else text
  }

  /** The cells of one row, joined by commas. */
  function Line(cells: seq<string>): string
    requires cells != []
  {
    if |cells| == 1 then Cell(cells[0]) else Cell(cells[0]) + [COMMA] + Line(cells[1..])
  }

  /** Every line ends with CR LF, the last one too. */
  function Document(rows: seq<seq<string>>): string
    requires forall k :: 0 <= k < |rows| ==> rows[k] != []
  {
    if rows == [] then [] else Line(rows[0]) + [CR, LF] + Document(rows[1..])
  }

  function GuardedRow(cells: seq<string>): (r: seq<string>)
    ensures |r| == |cells|
  {
    if cells == [] then [] else [Guarded(cells[0])] + GuardedRow(cells[1..])
  }

  function GuardedRows(rows: seq<seq<string>>): seq<seq<string>> {
    if rows == [] then [] else [GuardedRow(rows[0])] + GuardedRows(rows[1..])
  }

  // ---- parsing ----

  datatype Parsed<T> = Read(value: T, rest: string) | Malformed

  /** Inside quotes: two quotes are one, a single one ends the field. */
  function ParseQuoted(s: string): Parsed<string> {
    if s == [] then Malformed
    else if s[0] != QUOTE then
      var more := ParseQuoted(s[1..]);
      if more.Malformed? then Malformed else Read([s[0]] + more.value, more.rest)
    else if |s| > 1 && s[1] == QUOTE then
      var more := ParseQuoted(s[2..]);
      if more.Malformed? then Malformed else Read([QUOTE] + more.value, more.rest)
    else Read([], s[1..])
  }

  function ParsePlain(s: string): Parsed<string> {
    if s == [] || Special(s[0]) then Read([], s)
    else var more := ParsePlain(s[1..]); if more.Malformed? then Malformed else Read([s[0]] + more.value, more.rest)
  }

  function ParseField(s: string): (r: Parsed<string>)
    ensures r.Read? ==> |r.rest| <= |s|
  {
    PartsShorter(s);
    if s != [] && s[0] == QUOTE then PartsShorter(s[1..]); ParseQuoted(s[1..]) else ParsePlain(s)
  }

  lemma PartsShorter(s: string)
    ensures ParseQuoted(s).Read? ==> |ParseQuoted(s).rest| < |s|
    ensures ParsePlain(s).Read? ==> |ParsePlain(s).rest| <= |s|
  {
    if s != [] {
      PartsShorter(s[1..]);
      if |s| > 1 {
        PartsShorter(s[2..]);
      }
    }
  }

  /** Fields separated by commas. */
  function ParseRecord(s: string): (r: Parsed<seq<string>>)
    ensures r.Read? ==> |r.rest| <= |s|
    decreases |s|
  {
    var field := ParseField(s);
    if field.Malformed? then Malformed
    else if field.rest != [] && field.rest[0] == COMMA then
      var more := ParseRecord(field.rest[1..]);
      if more.Malformed? then Malformed else Read([field.value] + more.value, more.rest)
    else Read([field.value], field.rest)
  }

  /** Records ended by CR LF; the last one may end with the text. */
  function ParseDocument(s: string): Parsed<seq<seq<string>>>
    decreases |s|
  {
    if s == [] then Read([], [])
    else
      var record := ParseRecord(s);
      if record.Malformed? then Malformed
      else if record.rest == [] then Read([record.value], [])
      else if |record.rest| >= 2 && record.rest[0] == CR && record.rest[1] == LF then
        var more := ParseDocument(record.rest[2..]);
        if more.Malformed? then Malformed else Read([record.value] + more.value, more.rest)
      else Malformed
  }

  // ---- reading back ----

  /** What follows a field: the end of the text, a comma or a line end. */
  predicate Delimited(rest: string) { rest == [] || rest[0] == COMMA || rest[0] == CR }

  lemma QuotedChar(c: char, more: string, text: string, rest: string)
    requires c != QUOTE && ParseQuoted(more) == Read(text, rest)
    ensures ParseQuoted([c] + more) == Read([c] + text, rest)
  {
    assert ([c] + more)[1..] == more;
  }

  lemma QuotedPair(more: string, text: string, rest: string)
    requires ParseQuoted(more) == Read(text, rest)
    ensures ParseQuoted([QUOTE, QUOTE] + more) == Read([QUOTE] + text, rest)
  {
    assert ([QUOTE, QUOTE] + more)[2..] == more;
  }

  lemma QuotedEnd(rest: string)
    requires Delimited(rest)
    ensures ParseQuoted([QUOTE] + rest) == Read([], rest)
  {
    assert ([QUOTE] + rest)[1..] == rest;
  }

  lemma {:induction false} QuotedBack(text: string, rest: string)
    requires Delimited(rest)
    ensures ParseQuoted(Doubled(text) + ([QUOTE] + rest)) == Read(text, rest)
  {
    hide ParseQuoted;
    var tail := [QUOTE] + rest;
    if text == [] {
      QuotedEnd(rest);
      assert [] + tail == tail;
    } else {
      QuotedBack(text[1..], rest);
      var more := Doubled(text[1..]) + tail;
      assert text == [text[0]] + text[1..];
      if text[0] == QUOTE {
        QuotedPair(more, text[1..], rest);
        assert Doubled(text) + tail == [QUOTE, QUOTE] + more;
      } else {
        QuotedChar(text[0], more, text[1..], rest);
        assert Doubled(text) + tail == [text[0]] + more;
      }
    }
  }

  lemma {:induction false} PlainBack(text: string, rest: string)
    requires !HasSpecial(text) && Delimited(rest)
    ensures ParsePlain(text + rest) == Read(text, rest)
  {
    if text == [] {
      assert text + rest == rest;
    } else {
      assert !Special(text[0]);
      forall k | 0 <= k < |text| - 1
        ensures !Special(text[1..][k])
      {
        assert !Special(text[k + 1]);
      }
      PlainBack(text[1..], rest);
      assert (text + rest)[1..] == text[1..] + rest;
      assert text == [text[0]] + text[1..];
    }
  }

  /** A cell is read back as its guarded text, whatever it contains. */
  lemma CellBack(raw: string, rest: string)
    requires Delimited(rest)
    ensures ParseField(Cell(raw) + rest) == Read(Guarded(raw), rest)
  {
    var text := Guarded(raw);
    if HasSpecial(text) {
      QuotedBack(text, rest);
      var tail := Doubled(text) + ([QUOTE] + rest);
      assert Cell(raw) + rest == [QUOTE] + tail;
      assert ([QUOTE] + tail)[1..] == tail;
    } else {
      PlainBack(text, rest);
      assert text != [] ==> !Special(text[0]);
      assert text == [] ==> text + rest == rest;
      assert text != [] ==> (text + rest)[0] == text[0];
    }
  }

  lemma LastField(raw: string, rest: string)
    requires rest == [] || rest[0] == CR
    ensures ParseRecord(Cell(raw) + rest) == Read([Guarded(raw)], rest)
  {
    hide Cell, Guarded, ParseField;
    CellBack(raw, rest);
  }

  lemma NextField(raw: string, more: string, fields: seq<string>, rest: string)
    requires ParseRecord(more) == Read(fields, rest)
    ensures ParseRecord(Cell(raw) + ([COMMA] + more)) == Read([Guarded(raw)] + fields, rest)
  {
    hide Cell, Guarded, ParseField;
    CellBack(raw, [COMMA] + more);
    assert ([COMMA] + more)[1..] == more;
  }

  lemma {:induction false} LineBack(cells: seq<string>, rest: string)
    requires cells != [] && (rest == [] || rest[0] == CR)
    ensures ParseRecord(Line(cells) + rest) == Read(GuardedRow(cells), rest)
  {
    hide Cell, Guarded, ParseRecord;
    if |cells| == 1 {
      LastField(cells[0], rest);
      assert cells[1..] == [] && GuardedRow([]) == [];
      assert GuardedRow(cells) == [Guarded(cells[0])];
    } else {
      var more := Line(cells[1..]) + rest;
      LineBack(cells[1..], rest);
      NextField(cells[0], more, GuardedRow(cells[1..]), rest);
      assert Line(cells) + rest == Cell(cells[0]) + ([COMMA] + more);
    }
  }

  lemma NextRecord(cells: seq<string>, more: string, records: seq<seq<string>>)
    requires cells != [] && ParseDocument(more) == Read(records, [])
    ensures ParseDocument(Line(cells) + ([CR, LF] + more)) == Read([GuardedRow(cells)] + records, [])
  {
    hide Line, GuardedRow, ParseRecord;
    LineBack(cells, [CR, LF] + more);
    assert ([CR, LF] + more)[2..] == more;
  }

  /** Parsing the document gives exactly the matrix of guarded cell texts, for any
      contents: commas, quotes, CR and LF included. */
  lemma {:induction false} DocumentBack(rows: seq<seq<string>>)
    requires forall k :: 0 <= k < |rows| ==> rows[k] != []
    ensures ParseDocument(Document(rows)) == Read(GuardedRows(rows), [])
  {
    hide Line, GuardedRow;
    if rows != [] {
      var more := Document(rows[1..]);
      DocumentBack(rows[1..]);
      NextRecord(rows[0], more, GuardedRows(rows[1..]));
      assert Document(rows) == Line(rows[0]) + ([CR, LF] + more);
    }
  }

  /** No cell of the parsed document starts a formula; exactly the cells that would
      have got an apostrophe in front. */
  lemma GuardedIsSafe(raw: string)
    ensures Guarded(raw) == [] || Guarded(raw)[0] !in "=+-@\t\r"
    ensures Guarded(raw) == if raw != [] && raw[0] in {'=', '+', '-', '@', '\t', '\r'} then ['\''] + raw else raw
  {
  }

  // ---- workbook cells ----

  /** Column labels A, B, ..., Z, AA, ...: bijective base 26 of column + 1. */
  function Label(value: nat): string
    decreases value
  {
    if value == 0 then [] else Label((value - 1) / 26) + [((value - 1) % 26) as char + 'A']
  }

  method ColumnLabel(column: nat) returns (letters: string)
    ensures letters == Label(column + 1)
  {
    var value: nat := column + 1;
    letters := [];
    while value > 0
      invariant Label(value) + letters == Label(column + 1)
    {
      value := value - 1;
      var letter := (value % 26) as char + 'A';
      ghost var before := Label(value / 26);
      assert before + [letter] + letters == before + ([letter] + letters);
      letters := [letter] + letters;
      value := value / 26;
    }
    assert [] + letters == letters;
  }

  function Column(letters: string): nat
    requires forall k :: 0 <= k < |letters| ==> 'A' <= letters[k] <= 'Z'
  {
    if letters == [] then 0 else 26 * Column(letters[..|letters| - 1]) + (letters[|letters| - 1] - 'A') as nat + 1
  }

  /** Labels are capital letters and give the column back; so no two columns share
      a label. */
  lemma {:induction false} ColumnOfLabel(value: nat)
    ensures forall k :: 0 <= k < |Label(value)| ==> 'A' <= Label(value)[k] <= 'Z'
    ensures Column(Label(value)) == value
    decreases value
  {
    if value > 0 {
      ColumnOfLabel((value - 1) / 26);
      assert Label(value)[..|Label(value)| - 1] == Label((value - 1) / 26);
    }
  }
}
