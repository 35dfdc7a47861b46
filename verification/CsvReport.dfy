/**
 * src/csvReport.js, against a reader written from section 2 of RFC 4180: records end in
 * CRLF, fields are separated by commas, a field is either quoted (with doubled quotes inside)
 * or free of quotes, commas, CR and LF.
 */
module CsvReport {
  import opened Prelude
  import opened Findings

  type Field = string
  type Record = seq<Field>

  const QUOTE := '"'
  const CRLF := "\r\n"

  // ------------------------------------------------------------------ printing

  predicate NeedsQuotes(c: char) { c == '"' || c == ',' || c == '\r' || c == '\n' }

  function Doubled(c: char): string {
    if c == QUOTE then [QUOTE, QUOTE] else [c]
  }

  /** str.replace(/"/g, '""') */
  function DoubleQuotes(s: string): string {
    if s == "" then "" else Doubled(s[0]) + DoubleQuotes(s[1..])
  }

  function EscapeCsvField(s: Field): string {
    if exists i :: 0 <= i < |s| && NeedsQuotes(s[i]) then [QUOTE] + DoubleQuotes(s) + [QUOTE] else s
  }

  /** row.map(escapeCsvField).join(",") */
  function PrintRecord(row: Record): string
    requires row != []
  {
    if |row| == 1 then EscapeCsvField(row[0]) else EscapeCsvField(row[0]) + "," + PrintRecord(row[1..])
  }

  /** lines.join(CRLF) + CRLF */
  function PrintTable(table: seq<Record>): string
    requires table != [] && forall i :: 0 <= i < |table| ==> table[i] != []
  {
    PrintRecord(table[0]) + CRLF + (if |table| == 1 then "" else PrintTable(table[1..]))
  }

  const HEADERS: Record :=
    ["ID", "Title", "Category", "Severity", "Affected Pages", "Example Pages", "Recommendation"]

  /** String(n) */
  function Decimal(n: nat): string {
    if n < 10 then [('0' as int + n) as char] else Decimal(n / 10) + [('0' as int + n % 10) as char]
  }

  /** The non-empty example pages, joined by "; ". */
  function JoinPages(examples: seq<Example>): string {
    if examples == [] then ""
    else if examples[0].page == "" then JoinPages(examples[1..])
    else
      var rest := JoinPages(examples[1..]);
      if rest == "" then examples[0].page else examples[0].page + "; " + rest
  }

  function RowOf(g: Group): (r: Record)
    ensures |r| == 7
  {
    [g.id, g.title, g.category, g.severity, Decimal(g.affectedPageCount), JoinPages(g.examples), g.recommendation]
  }

  function TableOf(groups: seq<Group>): (t: seq<Record>)
    ensures |t| == |groups| + 1 && forall i :: 0 <= i < |t| ==> |t[i]| == 7
  {
    [HEADERS] + Rows(groups)
  }

  function Rows(groups: seq<Group>): (t: seq<Record>)
    ensures |t| == |groups| && forall i :: 0 <= i < |t| ==> |t[i]| == 7
  {
    if groups == [] then [] else [RowOf(groups[0])] + Rows(groups[1..])
  }

  function GenerateCSVReport(groups: seq<Group>): string {
    PrintTable(TableOf(groups))
  }

  // ------------------------------------------------------------------ reading

  datatype Read<T> = Malformed | Read(value: T, rest: string)

  /** The inside of a quoted field, up to and including the closing quote. */
  function ReadQuoted(s: string): Read<Field> {
    if s == "" then Malformed
    else if s[0] != QUOTE then Prepend(s[0], ReadQuoted(s[1..]))
    else if |s| > 1 && s[1] == QUOTE then Prepend(QUOTE, ReadQuoted(s[2..]))
    else Read("", s[1..])
  }

  function Prepend(c: char, r: Read<Field>): Read<Field> {
    match r case Malformed => Malformed case Read(f, rest) => Read([c] + f, rest)
  }

  /** Text up to the first quote, comma, CR or LF. */
  function ReadBare(s: string): Read<Field> {
    if s == "" || NeedsQuotes(s[0]) then Read("", s) else Prepend(s[0], ReadBare(s[1..]))
  }

  function ReadField(s: string): Read<Field> {
    if s != "" && s[0] == QUOTE then ReadQuoted(s[1..]) else ReadBare(s)
  }

  lemma {:induction false} QuotedConsumes(s: string)
    ensures ReadQuoted(s).Read? ==> |ReadQuoted(s).rest| < |s|
  {
    if s != "" && s[0] != QUOTE {
      QuotedConsumes(s[1..]);
    } else if |s| > 1 && s[1] == QUOTE {
      QuotedConsumes(s[2..]);
    }
  }

  lemma {:induction false} BareConsumes(s: string)
    ensures ReadBare(s).Read? && |ReadBare(s).rest| <= |s|
  {
    if s != "" && !NeedsQuotes(s[0]) {
      BareConsumes(s[1..]);
    }
  }

  lemma FieldConsumes(s: string)
    ensures ReadField(s).Read? ==> |ReadField(s).rest| <= |s|
  {
    if s != "" && s[0] == QUOTE {
      QuotedConsumes(s[1..]);
    } else {
      BareConsumes(s);
    }
  }

  /** Fields separated by commas, up to and including a CRLF. */
  function ReadRecord(s: string): Read<Record>
    decreases |s|
  {
    FieldConsumes(s);
    match ReadField(s)
    case Malformed => Malformed
    case Read(f, rest) =>
      if CRLF <= rest then Read([f], rest[2..])
      else if rest != "" && rest[0] == ',' then
        match ReadRecord(rest[1..])
        case Malformed => Malformed
        case Read(fs, after) => Read([f] + fs, after)
      else Malformed
  }

  lemma {:induction false} RecordConsumes(s: string)
    ensures ReadRecord(s).Read? ==> |ReadRecord(s).rest| < |s|
    decreases |s|
  {
    FieldConsumes(s);
    if ReadField(s).Read? && ReadField(s).rest != "" && ReadField(s).rest[0] == ',' {
      RecordConsumes(ReadField(s).rest[1..]);
    }
  }

  /** The whole text as records, or None when it is not of the format. */
  function ReadTable(s: string): Option<seq<Record>>
    decreases |s|
  {
    RecordConsumes(s);
    match ReadRecord(s)
    case Malformed => None
    case Read(r, rest) =>
      if rest == "" then Some([r])
      else match ReadTable(rest)
           case None => None
           case Some(rs) => Some([r] + rs)
  }

  // ------------------------------------------------------------------ round trip

  /** What may follow a printed field. */
  ghost predicate Stops(rest: string) {
    rest != "" && (rest[0] == ',' || rest[0] == '\r')
  }

  /** Reading the doubled form of one character. */
  lemma ReadOneInside(c: char, tail: string, f: Field, rest: string)
    requires ReadQuoted(tail) == Read(f, rest)
    ensures ReadQuoted(Doubled(c) + tail) == Read([c] + f, rest)
  {
    var text := Doubled(c) + tail;
    if c == QUOTE {
      assert text[0] == QUOTE && text[1] == QUOTE && text[2..] == tail;
    } else {
      assert text[0] == c && text[1..] == tail;
    }
  }

  lemma ReadClosing(rest: string)
    requires Stops(rest)
    ensures ReadQuoted([QUOTE] + rest) == Read("", rest)
  {
    assert ([QUOTE] + rest)[1..] == rest;
  }

  lemma {:induction false} ReadDoubled(s: string, rest: string)
    requires Stops(rest)
    ensures ReadQuoted(DoubleQuotes(s) + ([QUOTE] + rest)) == Read(s, rest)
  {
    ReadClosing(rest);
    if s == "" {
      assert DoubleQuotes(s) + ([QUOTE] + rest) == [QUOTE] + rest;
    } else {
      ReadDoubled(s[1..], rest);
      ReadOneInside(s[0], DoubleQuotes(s[1..]) + ([QUOTE] + rest), s[1..], rest);
      Assoc(Doubled(s[0]), DoubleQuotes(s[1..]), [QUOTE] + rest);
      assert s == [s[0]] + s[1..];
    }
  }

  lemma {:induction false} ReadPlain(s: string, rest: string)
    requires Stops(rest) && forall i :: 0 <= i < |s| ==> !NeedsQuotes(s[i])
    ensures ReadBare(s + rest) == Read(s, rest)
  {
    if s == "" {
      assert s + rest == rest;
    } else {
      ReadPlain(s[1..], rest);
      assert (s + rest)[1..] == s[1..] + rest && s == [s[0]] + s[1..];
    }
  }

  lemma ReadQuotedField(f: Field, rest: string)
    requires Stops(rest)
    ensures ReadField([QUOTE] + DoubleQuotes(f) + [QUOTE] + rest) == Read(f, rest)
  {
    var inner := DoubleQuotes(f) + ([QUOTE] + rest);
    ReadDoubled(f, rest);
    assert ([QUOTE] + inner)[1..] == inner;
    Assoc([QUOTE] + DoubleQuotes(f), [QUOTE], rest);
    Assoc([QUOTE], DoubleQuotes(f), [QUOTE] + rest);
  }

  lemma ReadBareField(f: Field, rest: string)
    requires Stops(rest) && forall i :: 0 <= i < |f| ==> !NeedsQuotes(f[i])
    ensures ReadField(f + rest) == Read(f, rest)
  {
    ReadPlain(f, rest);
    assert (f + rest)[0] != QUOTE;
  }

  lemma ReadEscaped(f: Field, rest: string)
    requires Stops(rest)
    ensures ReadField(EscapeCsvField(f) + rest) == Read(f, rest)
  {
    if exists i :: 0 <= i < |f| && NeedsQuotes(f[i]) {
      ReadQuotedField(f, rest);
    } else {
      ReadBareField(f, rest);
    }
  }

  lemma RecordEnds(text: string, f: Field, rest: string)
    requires ReadField(text) == Read(f, CRLF + rest)
    ensures ReadRecord(text) == Read([f], rest)
  {
    assert CRLF <= CRLF + rest && (CRLF + rest)[2..] == rest;
  }

  lemma RecordGoesOn(text: string, f: Field, tail: string, fs: Record, rest: string)
    requires ReadField(text) == Read(f, "," + tail) && ReadRecord(tail) == Read(fs, rest)
    ensures ReadRecord(text) == Read([f] + fs, rest)
  {
    assert ("," + tail)[1..] == tail && ("," + tail)[0] == ',';
    assert !(CRLF <= "," + tail) by {
      assert CRLF[0] == '\r';
    }
  }

  lemma ReadLastField(f: Field, rest: string, text: string)
    requires text == EscapeCsvField(f) + (CRLF + rest)
    ensures ReadRecord(text) == Read([f], rest)
  {
    ReadEscaped(f, CRLF + rest);
    RecordEnds(text, f, rest);
  }

  lemma ReadNextField(f: Field, tail: string, text: string, fs: Record, rest: string)
    requires text == EscapeCsvField(f) + ("," + tail) && ReadRecord(tail) == Read(fs, rest)
    ensures ReadRecord(text) == Read([f] + fs, rest)
  {
    ReadEscaped(f, "," + tail);
    RecordGoesOn(text, f, tail, fs, rest);
  }

  lemma {:induction false} ReadPrintedRecord(row: Record, rest: string)
    requires row != []
    ensures ReadRecord(PrintRecord(row) + CRLF + rest) == Read(row, rest)
  {
    if |row| == 1 {
      ReadLastField(row[0], rest, EscapeCsvField(row[0]) + (CRLF + rest));
      assert EscapeCsvField(row[0]) + CRLF + rest == EscapeCsvField(row[0]) + (CRLF + rest);
      assert row == [row[0]];
    } else {
      ReadPrintedRecord(row[1..], rest);
      var tail := PrintRecord(row[1..]) + CRLF + rest;
      ReadNextField(row[0], tail, EscapeCsvField(row[0]) + ("," + tail), row[1..], rest);
      FirstFieldText(EscapeCsvField(row[0]), PrintRecord(row[1..]), rest);
      assert row == [row[0]] + row[1..];
    }
  }

  lemma FirstFieldText(first: string, others: string, rest: string)
    ensures first + "," + others + CRLF + rest == first + ("," + (others + CRLF + rest))
  {
  }

  /** Any table of non-empty rows is recovered exactly, whatever its fields contain. */
  lemma {:induction false} TableRoundTrip(table: seq<Record>)
    requires table != [] && forall i :: 0 <= i < |table| ==> table[i] != []
    ensures ReadTable(PrintTable(table)) == Some(table)
  {
    var rest := if |table| == 1 then "" else PrintTable(table[1..]);
    ReadPrintedRecord(table[0], rest);
    if |table| == 1 {
      assert table == [table[0]];
    } else {
      TableRoundTrip(table[1..]);
      assert table == [table[0]] + table[1..];
    }
  }

  /** The report reads back as its header and one row per group. */
  lemma ReportRoundTrip(groups: seq<Group>)
    ensures ReadTable(GenerateCSVReport(groups)) == Some(TableOf(groups))
  {
    TableRoundTrip(TableOf(groups));
  }

  // ------------------------------------------------------------------ the format itself

  /**
   * A field is printed as it is exactly when it has none of the four special characters; otherwise it stands in
   * quotes.
   */
  lemma QuotedIff(s: Field)
    ensures EscapeCsvField(s) == s <==>
            forall i :: 0 <= i < |s| ==> s[i] != '"' && s[i] != ',' && s[i] != '\r' && s[i] != '\n'
    ensures EscapeCsvField(s) != s ==> EscapeCsvField(s) == ['"'] + DoubleQuotes(s) + ['"']
  {
    DoublingGrows(s);
  }

  lemma {:induction false} DoublingGrows(s: string)
    ensures |DoubleQuotes(s)| >= |s|
  {
    if s != "" {
      DoublingGrows(s[1..]);
    }
  }

  /** Each quote is written twice and everything else once. */
  lemma {:induction false} DoublingMeaning(s: string, c: char)
    ensures DoubleQuotes(s + [c]) == DoubleQuotes(s) + (if c == '"' then ['"', '"'] else [c])
  {
    if s == "" {
      assert s + [c] == [c] && [c][1..] == "";
    } else {
      assert (s + [c])[1..] == s[1..] + [c];
      DoublingMeaning(s[1..], c);
      Assoc(Doubled(s[0]), DoubleQuotes(s[1..]), if c == '"' then ['"', '"'] else [c]);
    }
  }

  /** A table of one record of two fields: comma between, CR LF after. */
  lemma RecordShape(a: Field, b: Field)
    ensures PrintTable([[a, b]]) == EscapeCsvField(a) + [','] + EscapeCsvField(b) + ['\r', '\n']
  {
    assert [a, b][1..] == [b] && "," == [','] && CRLF == ['\r', '\n'];
    assert PrintRecord([a, b]) == EscapeCsvField(a) + "," + PrintRecord([b]);
    assert PrintTable([[a, b]]) == PrintRecord([a, b]) + CRLF + "";
  }

  /** The reader ends an unquoted field before the first quote, comma, CR or LF, and nowhere else. */
  lemma {:induction false} BareMeaning(s: string, rest: string)
    requires forall i :: 0 <= i < |s| ==> s[i] != '"' && s[i] != ',' && s[i] != '\r' && s[i] != '\n'
    requires rest == "" || rest[0] == '"' || rest[0] == ',' || rest[0] == '\r' || rest[0] == '\n'
    ensures ReadBare(s + rest) == Read(s, rest)
  {
    if s == "" {
      assert s + rest == rest;
    } else {
      BareMeaning(s[1..], rest);
      assert (s + rest)[1..] == s[1..] + rest && s == [s[0]] + s[1..];
    }
  }

  /** The number a text of digits stands for. */
  function ValueOf(s: string): int {
    if s == "" then 0 else 10 * ValueOf(s[..|s| - 1]) + (s[|s| - 1] as int - '0' as int)
  }

  /** A printed number is all digits, without leading zeros, and stands for itself. */
  lemma {:induction false} DecimalMeaning(n: nat)
    ensures ValueOf(Decimal(n)) == n && Decimal(n) != ""
    ensures forall i :: 0 <= i < |Decimal(n)| ==> '0' <= Decimal(n)[i] <= '9'
    ensures Decimal(n)[0] == '0' ==> n == 0
  {
    if n >= 10 {
      var front, c := Decimal(n / 10), ('0' as int + n % 10) as char;
      DecimalMeaning(n / 10);
      assert Decimal(n) == front + [c] && (front + [c])[..|front|] == front;
    } else {
      assert Decimal(n)[..0] == "";
    }
  }

  /** The columns of the report, header and rows. */
  lemma ReportColumns(groups: seq<Group>, k: nat)
    requires k < |groups|
    ensures var t := TableOf(groups);
            && |t| == |groups| + 1
            && t[0] == ["ID", "Title", "Category", "Severity", "Affected Pages", "Example Pages", "Recommendation"]
            && t[k + 1][0] == groups[k].id && t[k + 1][1] == groups[k].title && t[k + 1][2] == groups[k].category
            && t[k + 1][3] == groups[k].severity && ValueOf(t[k + 1][4]) == groups[k].affectedPageCount
            && t[k + 1][5] == JoinPages(groups[k].examples) && t[k + 1][6] == groups[k].recommendation
  {
    RowAt(groups, k);
    DecimalMeaning(groups[k].affectedPageCount);
  }

  lemma {:induction false} RowAt(groups: seq<Group>, k: nat)
    requires k < |groups|
    ensures Rows(groups)[k] == RowOf(groups[k])
  {
    if k > 0 {
      RowAt(groups[1..], k - 1);
    }
  }

  /** Example pages are joined by a semicolon and a blank; empty ones are left out. */
  lemma JoinMeaning(e: Example, more: seq<Example>)
    ensures e.page == "" ==> JoinPages([e] + more) == JoinPages(more)
    ensures e.page != "" ==>
              JoinPages([e] + more) == if JoinPages(more) == "" then e.page else e.page + [';', ' '] + JoinPages(more)
    ensures JoinPages(more) == "" <==> forall i :: 0 <= i < |more| ==> more[i].page == ""
  {
    assert ([e] + more)[1..] == more;
    JoinEmptyIff(more);
  }

  lemma {:induction false} JoinEmptyIff(es: seq<Example>)
    ensures JoinPages(es) == "" <==> forall i :: 0 <= i < |es| ==> es[i].page == ""
  {
    if es != [] {
      JoinEmptyIff(es[1..]);
      assert forall i :: 0 < i < |es| ==> es[i] == es[1..][i - 1];
    }
  }
}
