/** The CSV text that toCsv prints, and a reader that follows section 2 of RFC 4180 with a
    line feed as row break. */
module Csv {
  import opened Options

  /** A property value: null and undefined print alike; anything else prints as its string form. */
  datatype Cell = Null | Text(text: string)

  /** An object's own properties in order, each key once. */
  type Record = seq<(string, Cell)>

  const QUOTE := '"'
  const COMMA := ','
  const LF := '\n'

  // ---- Printing --------------------------------------------------------------------

  function Keys(r: Record): seq<string> {
    if r == [] then [] else [r[0].0] + Keys(r[1..])
  }

  function Lookup(r: Record, key: string): Cell {
    if r == [] then Null else if r[0].0 == key then r[0].1 else Lookup(r[1..], key)
  }

  /** replace(/"/g, '""') */
  function Escape(s: string): string {
    if s == [] then [] else (if s[0] == QUOTE then [QUOTE, QUOTE] else [s[0]]) + Escape(s[1..])
  }

  function PrintCell(c: Cell): string {
    match c
    case Null => []
    case Text(t) => [QUOTE] + Escape(t) + [QUOTE]
  }

  function PrintCells(headers: seq<string>, r: Record): seq<string> {
    if headers == [] then [] else [PrintCell(Lookup(r, headers[0]))] + PrintCells(headers[1..], r)
  }

  function Join(parts: seq<string>, separator: char): string {
    if parts == [] then [] else if |parts| == 1 then parts[0]
    else parts[0] + ([separator] + Join(parts[1..], separator))
  }

  function PrintRows(headers: seq<string>, rows: seq<Record>): seq<string> {
    if rows == [] then [] else [Join(PrintCells(headers, rows[0]), COMMA)] + PrintRows(headers, rows[1..])
  }

  function ToCsv(rows: seq<Record>): string {
    if rows == [] then [] else
    var headers := Keys(rows[0]);
    Join([Join(headers, COMMA)] + PrintRows(headers, rows), LF)
  }

  // ---- Reading ---------------------------------------------------------------------

  /** A field's text and what follows it. */
  type Parsed = Option<(string, string)>

  predicate TextData(c: char) {
    c != QUOTE && c != COMMA && c != LF
  }

  /** non-escaped = *TEXTDATA */
  function ReadPlain(s: string): (string, string) {
    if s != [] && TextData(s[0]) then var (text, rest) := ReadPlain(s[1..]); ([s[0]] + text, rest) else ([], s)
  }

  /** The inside of an escaped field, up to and over its closing quote. */
  function ReadQuoted(s: string): Parsed {
    if s == [] then None
    else if s[0] == QUOTE then
      if |s| > 1 && s[1] == QUOTE then Prepend(QUOTE, ReadQuoted(s[2..])) else Some(([], s[1..]))
    else Prepend(s[0], ReadQuoted(s[1..]))
  }

  function Prepend(c: char, p: Parsed): Parsed {
    match p
    case None => None
    case Some((text, rest)) => Some(([c] + text, rest))
  }

  function ReadField(s: string): (p: Parsed)
    ensures p.Some? ==> |p.value.1| <= |s|
  {
    if s != [] && s[0] == QUOTE then ReadQuotedShorter(s[1..]); ReadQuoted(s[1..])
    else ReadPlainShorter(s); Some(ReadPlain(s))
  }

  lemma {:induction false} ReadQuotedShorter(s: string)
    ensures ReadQuoted(s).Some? ==> |ReadQuoted(s).value.1| < |s|
  {
    if s != [] {
      if s[0] != QUOTE {
        ReadQuotedShorter(s[1..]);
      } else if |s| > 1 && s[1] == QUOTE {
        ReadQuotedShorter(s[2..]);
      }
    }
  }

  lemma {:induction false} ReadPlainShorter(s: string)
    ensures |ReadPlain(s).0| + |ReadPlain(s).1| == |s|
  {
    if s != [] && TextData(s[0]) {
      ReadPlainShorter(s[1..]);
    }
  }

  /** Fields separated by commas, up to a row break or the end. */
  function ReadRecord(s: string): (p: Option<(seq<string>, string)>)
    ensures p.Some? ==> |p.value.1| <= |s| && (p.value.1 == [] || p.value.1[0] == LF)
    decreases |s|
  {
    match ReadField(s)
    case None => None
    case Some((field, rest)) =>
      if rest == [] || rest[0] == LF then Some(([field], rest))
      else if rest[0] == COMMA then
        match ReadRecord(rest[1..])
        case None => None
        case Some((fields, after)) => Some(([field] + fields, after))
      else None
  }

  /** Records separated by row breaks; the last one may or may not have an ending row break. */
  function ReadFile(s: string): Option<seq<seq<string>>>
    decreases |s|
  {
    match ReadRecord(s)
    case None => None
    case Some((record, rest)) =>
      if |rest| <= 1 then Some([record]) else
      match ReadFile(rest[1..])
      case None => None
      case Some(records) => Some([record] + records)
  }

  // ---- Reading back one field and one record ---------------------------------------

  predicate FieldEnd(rest: string) {
    rest == [] || rest[0] == COMMA || rest[0] == LF
  }

  predicate Plain(s: string) {
    forall i :: 0 <= i < |s| ==> TextData(s[i])
  }

  lemma {:induction false} PlainReadsBack(s: string, rest: string)
    requires Plain(s) && FieldEnd(rest)
    ensures ReadField(s + rest) == Some((s, rest))
  {
    PlainTaken(s, rest);
  }

  lemma {:induction false} PlainTaken(s: string, rest: string)
    requires Plain(s) && FieldEnd(rest)
    ensures ReadPlain(s + rest) == (s, rest)
  {
    if s == [] {
      assert s + rest == rest;
    } else {
      assert (s + rest)[1..] == s[1..] + rest;
      PlainTaken(s[1..], rest);
      assert [s[0]] + s[1..] == s;
    }
  }

  lemma {:induction false} EscapeReadsBack(t: string, rest: string)
    requires FieldEnd(rest)
    ensures ReadQuoted(Escape(t) + [QUOTE] + rest) == Some((t, rest))
  {
    var s := Escape(t) + [QUOTE] + rest;
    if t == [] {
      assert s == [QUOTE] + rest;
    } else {
      EscapeReadsBack(t[1..], rest);
      var head := if t[0] == QUOTE then [QUOTE, QUOTE] else [t[0]];
      assert s == head + (Escape(t[1..]) + [QUOTE] + rest);
      assert s[|head|..] == Escape(t[1..]) + [QUOTE] + rest;
      assert [t[0]] + t[1..] == t;
    }
  }

  function StringForm(c: Cell): string {
    match c
    case Null => []
    case Text(t) => t
  }

  lemma CellReadsBack(c: Cell, rest: string)
    requires FieldEnd(rest)
    ensures ReadField(PrintCell(c) + rest) == Some((StringForm(c), rest))
  {
    match c
    case Null => PlainReadsBack([], rest);
    case Text(t) =>
      assert (PrintCell(c) + rest)[1..] == Escape(t) + [QUOTE] + rest;
      EscapeReadsBack(t, rest);
  }

  function StringForms(headers: seq<string>, r: Record): seq<string> {
    if headers == [] then [] else [StringForm(Lookup(r, headers[0]))] + StringForms(headers[1..], r)
  }

  predicate RecordEnd(rest: string) {
    rest == [] || rest[0] == LF
  }

  /** A printed field that reads as the text, whatever follows it. */
  ghost predicate ReadsAs(printed: string, text: string) {
    forall rest | FieldEnd(rest) :: ReadField(printed + rest) == Some((text, rest))
  }

  lemma JoinStep(parts: seq<string>, rest: string)
    requires |parts| > 1
    ensures Join(parts, COMMA) + rest == parts[0] + ([COMMA] + (Join(parts[1..], COMMA) + rest))
  {
  }

  lemma FieldThenRecord(s: string, field: string, after: string)
    requires ReadField(s) == Some((field, [COMMA] + after))
    ensures ReadRecord(s) == match ReadRecord(after)
                             case None => None
                             case Some((fields, rest)) => Some(([field] + fields, rest))
  {
    assert ([COMMA] + after)[1..] == after;
  }

  lemma {:induction false} FieldsReadBack(printed: seq<string>, texts: seq<string>, rest: string)
    requires printed != [] && |texts| == |printed| && RecordEnd(rest)
    requires forall i :: 0 <= i < |printed| ==> ReadsAs(printed[i], texts[i])
    ensures ReadRecord(Join(printed, COMMA) + rest) == Some((texts, rest))
  {
    assert ReadsAs(printed[0], texts[0]);
    if |printed| == 1 {
      assert texts == [texts[0]];
    } else {
      var after := Join(printed[1..], COMMA) + rest;
      JoinStep(printed, rest);
      FieldsReadBack(printed[1..], texts[1..], rest);
      FieldThenRecord(Join(printed, COMMA) + rest, texts[0], after);
      assert texts == [texts[0]] + texts[1..];
    }
  }

  lemma {:induction false} RowFields(headers: seq<string>, r: Record)
    ensures |PrintCells(headers, r)| == |StringForms(headers, r)| == |headers|
    ensures forall i :: 0 <= i < |headers| ==> ReadsAs(PrintCells(headers, r)[i], StringForms(headers, r)[i])
  {
    if headers != [] {
      RowFields(headers[1..], r);
      forall rest | FieldEnd(rest) {
        CellReadsBack(Lookup(r, headers[0]), rest);
      }
    }
  }

  lemma RowReadsBack(headers: seq<string>, r: Record, rest: string)
    requires headers != [] && RecordEnd(rest)
    ensures ReadRecord(Join(PrintCells(headers, r), COMMA) + rest) == Some((StringForms(headers, r), rest))
  {
    RowFields(headers, r);
    FieldsReadBack(PrintCells(headers, r), StringForms(headers, r), rest);
  }

  predicate AllPlain(headers: seq<string>) {
    forall i :: 0 <= i < |headers| ==> Plain(headers[i])
  }

  lemma HeadersReadBack(headers: seq<string>, rest: string)
    requires headers != [] && AllPlain(headers) && RecordEnd(rest)
    ensures ReadRecord(Join(headers, COMMA) + rest) == Some((headers, rest))
  {
    forall i | 0 <= i < |headers| ensures ReadsAs(headers[i], headers[i]) {
      forall after | FieldEnd(after) {
        PlainReadsBack(headers[i], after);
      }
    }
    FieldsReadBack(headers, headers, rest);
  }

  // ---- Reading back the file -------------------------------------------------------

  /** The cells of every row, by header. */
  function Body(headers: seq<string>, rows: seq<Record>): seq<seq<string>> {
    if rows == [] then [] else [StringForms(headers, rows[0])] + Body(headers, rows[1..])
  }

  /** The last row prints as an empty line: one column, and nothing in it. */
  predicate EndsEmpty(headers: seq<string>, rows: seq<Record>)
    requires rows != []
  {
    |headers| == 1 && Lookup(rows[|rows| - 1], headers[0]) == Null
  }

  function ReadableRows(headers: seq<string>, rows: seq<Record>): seq<Record>
    requires rows != []
  {
    if EndsEmpty(headers, rows) then rows[..|rows| - 1] else rows
  }

  lemma EmptyLine(headers: seq<string>, r: Record)
    requires headers != []
    ensures Join(PrintCells(headers, r), COMMA) == [] <==> |headers| == 1 && Lookup(r, headers[0]) == Null
  {
  }

  /** The rows read back, but a last row printed as an empty line is taken for an ending row break. */
  lemma {:induction false} RowsReadBack(headers: seq<string>, rows: seq<Record>)
    requires headers != [] && rows != []
    requires |rows| > 1 || !EndsEmpty(headers, rows)
    ensures ReadFile(Join(PrintRows(headers, rows), LF)) == Some(Body(headers, ReadableRows(headers, rows)))
  {
    var line := Join(PrintCells(headers, rows[0]), COMMA);
    if |rows| == 1 {
      assert line + [] == line;
      RowReadsBack(headers, rows[0], []);
      assert Body(headers, rows) == [StringForms(headers, rows[0])];
    } else {
      var more := Join(PrintRows(headers, rows[1..]), LF);
      assert PrintRows(headers, rows)[1..] == PrintRows(headers, rows[1..]);
      assert Join(PrintRows(headers, rows), LF) == line + ([LF] + more);
      RowReadsBack(headers, rows[0], [LF] + more);
      assert ([LF] + more)[1..] == more;
      LinesEmpty(headers, rows[1..]);
      var readable := ReadableRows(headers, rows);
      assert EndsEmpty(headers, rows) == EndsEmpty(headers, rows[1..]);
      assert readable[0] == rows[0];
      assert readable[1..] == ReadableRows(headers, rows[1..]);
      assert Body(headers, readable) == [StringForms(headers, rows[0])] + Body(headers, readable[1..]);
      if |rows| > 2 || !EndsEmpty(headers, rows) {
        RowsReadBack(headers, rows[1..]);
      } else {
        assert more == [] && Body(headers, readable[1..]) == [];
        assert Body(headers, readable) == [StringForms(headers, rows[0])];
      }
    }
  }

  lemma LinesEmpty(headers: seq<string>, rows: seq<Record>)
    requires headers != [] && rows != []
    ensures Join(PrintRows(headers, rows), LF) == [] <==> |rows| == 1 && EndsEmpty(headers, rows)
  {
    EmptyLine(headers, rows[0]);
  }

  /** With plain headers, reading recovers the header and every cell's string form, except that an empty
      last line is lost. */
  lemma PlainHeadersReadBack(rows: seq<Record>)
    requires rows != [] && Keys(rows[0]) != [] && AllPlain(Keys(rows[0]))
    ensures ReadFile(ToCsv(rows)) == Some([Keys(rows[0])] + Body(Keys(rows[0]), ReadableRows(Keys(rows[0]), rows)))
  {
    var headers := Keys(rows[0]);
    var more := Join(PrintRows(headers, rows), LF);
    var lines := [Join(headers, COMMA)] + PrintRows(headers, rows);
    assert lines[1..] == PrintRows(headers, rows);
    assert ToCsv(rows) == Join(headers, COMMA) + ([LF] + more);
    HeadersReadBack(headers, [LF] + more);
    assert ([LF] + more)[1..] == more;
    LinesEmpty(headers, rows);
    if |rows| > 1 || !EndsEmpty(headers, rows) {
      RowsReadBack(headers, rows);
    } else {
      assert more == [] && Body(headers, ReadableRows(headers, rows)) == [];
      assert [headers] + [] == [headers];
    }
  }

  // ---- Exactly when the reader gets everything back --------------------------------

  /** What the quoted reader accepts is what the printer prints. */
  lemma {:induction false} QuotedIsEscaped(s: string)
    requires ReadQuoted(s).Some?
    ensures s == Escape(ReadQuoted(s).value.0) + [QUOTE] + ReadQuoted(s).value.1
  {
    if s[0] != QUOTE {
      QuotedIsEscaped(s[1..]);
      var (text, rest) := ReadQuoted(s[1..]).value;
      assert ReadQuoted(s) == Some(([s[0]] + text, rest));
      assert ([s[0]] + text)[1..] == text;
      assert Escape([s[0]] + text) == [s[0]] + Escape(text);
    } else if |s| > 1 && s[1] == QUOTE {
      QuotedIsEscaped(s[2..]);
      var (text, rest) := ReadQuoted(s[2..]).value;
      assert ReadQuoted(s) == Some(([QUOTE] + text, rest));
      assert ([QUOTE] + text)[1..] == text;
      assert Escape([QUOTE] + text) == [QUOTE, QUOTE] + Escape(text);
      assert s == [QUOTE, QUOTE] + s[2..];
    } else {
      assert s == [QUOTE] + s[1..];
    }
  }

  lemma {:induction false} LeadingQuotesDouble(s: string, k: nat)
    requires k <= |s| && forall j :: 0 <= j < k ==> s[j] == QUOTE
    ensures |Escape(s)| >= |s| && |Escape(s)| >= 2 * k
    ensures forall j :: 0 <= j < 2 * k ==> Escape(s)[j] == QUOTE
  {
    if s != [] {
      LeadingQuotesDouble(s[1..], if k > 0 then k - 1 else 0);
    }
  }

  /** An unescaped text that begins with a quote never reads as itself. */
  lemma QuoteFirstMisread(h: string, tail: string)
    requires FieldEnd(tail) && h != [] && h[0] == QUOTE
    ensures var p := ReadField(h + tail); p.Some? ==> p.value.0 != h
  {
    var s := h + tail;
    var p := ReadField(s);
    if p.Some? && p.value.0 == h {
      QuotedIsEscaped(s[1..]);
      var printed := [QUOTE] + (Escape(h) + [QUOTE] + p.value.1);
      assert s == printed;
      LeadingQuotesDouble(h, 0);
      var k := 0;
      while k < |h|
        invariant k <= |h| < |s| && s[k] == QUOTE
        invariant forall j :: 0 <= j < k ==> h[j] == QUOTE
      {
        LeadingQuotesDouble(h, k + 1);
        k := k + 1;
        assert printed[k] == QUOTE;
      }
    }
  }

  lemma {:induction false} PlainPrefix(s: string)
    ensures Plain(ReadPlain(s).0)
  {
    if s != [] && TextData(s[0]) {
      PlainPrefix(s[1..]);
    }
  }

  /** Only a plain header reads as itself. */
  lemma HeaderReadsAsItself(h: string, tail: string)
    requires FieldEnd(tail)
    requires ReadField(h + tail).Some? && ReadField(h + tail).value.0 == h
    ensures Plain(h) && ReadField(h + tail).value.1 == tail
  {
    if h != [] && h[0] == QUOTE {
      QuoteFirstMisread(h, tail);
    } else {
      assert h == [] ==> h + tail == tail;
      PlainPrefix(h + tail);
      PlainTaken(h, tail);
    }
  }

  /** A record that is read begins with the field that is read. */
  lemma FirstField(s: string)
    requires ReadRecord(s).Some?
    ensures ReadField(s).Some? && ReadRecord(s).value.0 != [] && ReadRecord(s).value.0[0] == ReadField(s).value.0
  {
  }

  lemma {:induction false} HeadersReadAsThemselves(headers: seq<string>, rest: string)
    requires headers != [] && RecordEnd(rest)
    requires ReadRecord(Join(headers, COMMA) + rest).Some? && ReadRecord(Join(headers, COMMA) + rest).value.0 == headers
    ensures AllPlain(headers)
  {
    var h := headers[0];
    if |headers| == 1 {
      HeaderReadsAsItself(h, rest);
    } else {
      var after := Join(headers[1..], COMMA) + rest;
      JoinStep(headers, rest);
      FirstField(h + ([COMMA] + after));
      HeaderReadsAsItself(h, [COMMA] + after);
      FieldThenRecord(h + ([COMMA] + after), h, after);
      assert headers == [h] + headers[1..];
      HeadersReadAsThemselves(headers[1..], rest);
      assert forall i :: 1 <= i < |headers| ==> headers[i] == headers[1..][i - 1];
    }
  }

  lemma {:induction false} BodyLength(headers: seq<string>, rows: seq<Record>)
    ensures |Body(headers, rows)| == |rows|
  {
    if rows != [] {
      BodyLength(headers, rows[1..]);
    }
  }

  /** The reader recovers the header and every cell's string form exactly when there is a header, no header
      name holds a comma, a quote or a row break, and the last row is not a single empty cell. */
  lemma RoundTripExactly(rows: seq<Record>)
    requires rows != []
    ensures ReadFile(ToCsv(rows)) == Some([Keys(rows[0])] + Body(Keys(rows[0]), rows))
       <==> Keys(rows[0]) != [] && AllPlain(Keys(rows[0])) && !EndsEmpty(Keys(rows[0]), rows)
  {
    var headers := Keys(rows[0]);
    var lines := [Join(headers, COMMA)] + PrintRows(headers, rows);
    var rest := [LF] + Join(PrintRows(headers, rows), LF);
    assert lines[1..] == PrintRows(headers, rows);
    assert ToCsv(rows) == Join(headers, COMMA) + rest;
    if headers != [] && AllPlain(headers) {
      PlainHeadersReadBack(rows);
      BodyLength(headers, rows);
      BodyLength(headers, ReadableRows(headers, rows));
    } else if ReadFile(ToCsv(rows)) == Some([headers] + Body(headers, rows)) {
      assert ReadRecord(ToCsv(rows)).value.0 == ([headers] + Body(headers, rows))[0] == headers;
      HeadersReadAsThemselves(headers, rest);
    }
  }

  // ---- The round trip in terms of the records themselves ---------------------------

  ghost predicate DistinctKeys(r: Record) {
    forall i, j :: 0 <= i < j < |r| ==> r[i].0 != r[j].0
  }

  lemma {:induction false} KeysInOrder(r: Record)
    ensures |Keys(r)| == |r| && forall i :: 0 <= i < |r| ==> Keys(r)[i] == r[i].0
  {
    if r != [] {
      KeysInOrder(r[1..]);
    }
  }

  /** A record's cell is found under its own key, and nothing under a key it does not have. */
  lemma {:induction false} LookupExact(r: Record)
    requires DistinctKeys(r)
    ensures forall i :: 0 <= i < |r| ==> Lookup(r, r[i].0) == r[i].1
    ensures forall key :: (forall i :: 0 <= i < |r| ==> r[i].0 != key) ==> Lookup(r, key) == Null
  {
    if r != [] {
      LookupExact(r[1..]);
      forall key | forall i :: 0 <= i < |r| ==> r[i].0 != key ensures Lookup(r, key) == Null {
        assert r[0].0 != key;
        forall i | 0 <= i < |r[1..]| ensures r[1..][i].0 != key {
          assert r[1..][i] == r[i + 1];
        }
      }
      forall i | 0 <= i < |r| ensures Lookup(r, r[i].0) == r[i].1 {
        assert i > 0 ==> r[i] == r[1..][i - 1];
      }
    }
  }

  /** The field is what the record has for this header: the text of its text cell, nothing for a null cell or a
      missing key. */
  ghost predicate Prints(field: string, r: Record, header: string) {
    && (forall i :: 0 <= i < |r| && r[i].0 == header ==>
          (forall t :: r[i].1 == Text(t) ==> field == t) && (r[i].1 == Null ==> field == []))
    && ((forall i :: 0 <= i < |r| ==> r[i].0 != header) ==> field == [])
  }

  /** One field for each key of the first record. */
  ghost predicate RowPrints(fields: seq<string>, r: Record, first: Record) {
    |fields| == |first| && forall j :: 0 <= j < |first| ==> Prints(fields[j], r, first[j].0)
  }

  /** A header row with the first record's keys, then for each record, in order, a row with its field for each of
      those keys. */
  ghost predicate Recovers(file: seq<seq<string>>, rows: seq<Record>)
    requires rows != []
  {
    && |file| == |rows| + 1 && |file[0]| == |rows[0]|
    && (forall j :: 0 <= j < |rows[0]| ==> file[0][j] == rows[0][j].0)
    && forall k :: 0 < k < |file| ==> RowPrints(file[k], rows[k - 1], rows[0])
  }

  lemma PrintedForm(r: Record, header: string, field: string)
    requires DistinctKeys(r)
    ensures Prints(field, r, header) <==> field == StringForm(Lookup(r, header))
  {
    LookupExact(r);
    if i :| 0 <= i < |r| && r[i].0 == header {
      assert Lookup(r, header) == r[i].1;
      assert forall k :: 0 <= k < |r| && r[k].0 == header ==> k == i;
    }
  }

  lemma {:induction false} StringFormsAt(headers: seq<string>, r: Record)
    ensures |StringForms(headers, r)| == |headers|
    ensures forall j :: 0 <= j < |headers| ==> StringForms(headers, r)[j] == StringForm(Lookup(r, headers[j]))
  {
    if headers != [] {
      StringFormsAt(headers[1..], r);
    }
  }

  lemma {:induction false} BodyAt(headers: seq<string>, rows: seq<Record>)
    ensures |Body(headers, rows)| == |rows|
    ensures forall i :: 0 <= i < |rows| ==> Body(headers, rows)[i] == StringForms(headers, rows[i])
  {
    if rows != [] {
      BodyAt(headers, rows[1..]);
    }
  }

  lemma RowPrintsExact(fields: seq<string>, r: Record, first: Record)
    requires DistinctKeys(r)
    ensures RowPrints(fields, r, first) <==> fields == StringForms(Keys(first), r)
  {
    var texts := StringForms(Keys(first), r);
    KeysInOrder(first);
    StringFormsAt(Keys(first), r);
    forall j, field | 0 <= j < |first| ensures Prints(field, r, first[j].0) <==> field == texts[j] {
      PrintedForm(r, first[j].0, field);
    }
    if RowPrints(fields, r, first) {
      assert forall j :: 0 <= j < |first| ==> Prints(fields[j], r, first[j].0);
    }
  }

  lemma RowSame(a: seq<string>, b: seq<string>, r: Record, first: Record)
    requires DistinctKeys(r) && RowPrints(a, r, first) && RowPrints(b, r, first)
    ensures a == b
  {
    RowPrintsExact(a, r, first);
    RowPrintsExact(b, r, first);
  }

  /** At most one file recovers the records. */
  lemma RecoversOnce(a: seq<seq<string>>, b: seq<seq<string>>, rows: seq<Record>)
    requires rows != [] && forall i :: 0 <= i < |rows| ==> DistinctKeys(rows[i])
    requires Recovers(a, rows) && Recovers(b, rows)
    ensures a == b
  {
    forall k | 0 <= k < |a| ensures a[k] == b[k] {
      if k == 0 {
        assert forall j :: 0 <= j < |rows[0]| ==> a[0][j] == b[0][j];
      } else {
        RowSame(a[k], b[k], rows[k - 1], rows[0]);
      }
    }
  }

  lemma FileAt(header: seq<string>, lines: seq<seq<string>>, k: nat)
    requires k <= |lines|
    ensures ([header] + lines)[k] == if k == 0 then header else lines[k - 1]
  {
  }

  lemma BodyRecovers(rows: seq<Record>)
    requires rows != [] && forall i :: 0 <= i < |rows| ==> DistinctKeys(rows[i])
    ensures Recovers([Keys(rows[0])] + Body(Keys(rows[0]), rows), rows)
  {
    var lines := Body(Keys(rows[0]), rows);
    var file := [Keys(rows[0])] + lines;
    KeysInOrder(rows[0]);
    BodyAt(Keys(rows[0]), rows);
    forall k | 0 < k < |file| ensures RowPrints(file[k], rows[k - 1], rows[0]) {
      FileAt(Keys(rows[0]), lines, k);
      RowPrintsExact(lines[k - 1], rows[k - 1], rows[0]);
    }
  }

  ghost predicate Lacks(r: Record, header: string) {
    forall i :: 0 <= i < |r| && r[i].0 == header ==> r[i].1 == Null
  }

  /** There is one column, and the last record has a null there or no such key. */
  ghost predicate LastRowEmpty(rows: seq<Record>)
    requires rows != []
  {
    |rows[0]| == 1 && Lacks(rows[|rows| - 1], rows[0][0].0)
  }

  lemma LastRowExact(rows: seq<Record>)
    requires rows != [] && forall i :: 0 <= i < |rows| ==> DistinctKeys(rows[i])
    ensures LastRowEmpty(rows) <==> EndsEmpty(Keys(rows[0]), rows)
  {
    var last := rows[|rows| - 1];
    KeysInOrder(rows[0]);
    LookupExact(last);
    if |rows[0]| == 1 {
      if i :| 0 <= i < |last| && last[i].0 == rows[0][0].0 {
        assert Lookup(last, rows[0][0].0) == last[i].1;
        assert forall k :: 0 <= k < |last| && last[k].0 == rows[0][0].0 ==> k == i;
      }
    }
  }

  /** Printing and reading recovers the records if and only if the first has a key, none of its keys holds a comma,
      a quote or a line feed, and the last row is not a single empty field. No record prints as no text. */
  lemma CsvRecovers(rows: seq<Record>)
    requires forall i :: 0 <= i < |rows| ==> DistinctKeys(rows[i])
    ensures rows == [] ==> ToCsv(rows) == ""
    ensures rows != [] ==>
              ((exists file :: ReadFile(ToCsv(rows)) == Some(file) && Recovers(file, rows)) <==>
               && rows[0] != [] && !LastRowEmpty(rows)
               && forall i :: 0 <= i < |rows[0]| ==> ',' !in rows[0][i].0 && '"' !in rows[0][i].0 && '\n' !in rows[0][i].0)
  {
    if rows != [] {
      var headers := Keys(rows[0]);
      var all := [headers] + Body(headers, rows);
      RoundTripExactly(rows);
      KeysInOrder(rows[0]);
      LastRowExact(rows);
      BodyRecovers(rows);
      forall file | Recovers(file, rows) ensures file == all {
        RecoversOnce(file, all, rows);
      }
      PlainHeaders(headers, rows[0]);
    }
  }

  lemma PlainHeaders(headers: seq<string>, r: Record)
    requires |headers| == |r| && forall i :: 0 <= i < |r| ==> headers[i] == r[i].0
    ensures AllPlain(headers) <==> forall i :: 0 <= i < |r| ==> ',' !in r[i].0 && '"' !in r[i].0 && '\n' !in r[i].0
  {
    forall i | 0 <= i < |r| ensures Plain(headers[i]) <==> ',' !in r[i].0 && '"' !in r[i].0 && '\n' !in r[i].0 {
      if Plain(headers[i]) {
        assert forall k :: 0 <= k < |headers[i]| ==> TextData(headers[i][k]);
      }
    }
  }
}
