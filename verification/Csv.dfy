/**
 The CSV export (src/modules/admin/admin.service.ts and
 src/modules/dashboard/audit/dashboard-audit.service.ts) against a reader that follows the
 quoting rules of section 2 of RFC 4180, with a line feed as the record break.
 */
module Csv {
  import opened Wrappers
  import opened Text

  type Record = seq<string>

  // ---- The encoder -------------------------------------------------------------------

  function DoubleQuotes(s: string): string {
    if s == "" then ""
    else (if s[0] == '"' then "\"\"" else [s[0]]) + DoubleQuotes(s[1..])
  }

  function EncodeField(field: string): string {
    "\"" + DoubleQuotes(field) + "\""
  }

  function EncodeFields(fields: Record): seq<string> {
    if fields == [] then [] else [EncodeField(fields[0])] + EncodeFields(fields[1..])
  }

  function EncodeRecord(fields: Record): string {
    Join(EncodeFields(fields), ",")
  }

  function EncodeRecords(records: seq<Record>): seq<string> {
    if records == [] then [] else [EncodeRecord(records[0])] + EncodeRecords(records[1..])
  }

  /** The header is joined unquoted; rows are quoted throughout; no break follows the last line. */
  function Export(header: Record, rows: seq<Record>): string {
    Join([Join(header, ",")] + EncodeRecords(rows), "\n")
  }

  // ---- The reader ------------------------------------------------------------------------

  datatype Mode =
    | FieldStart
    | Plain // inside an unquoted field
    | Quoted // inside a quoted field
    | QuoteSeen // after a quote inside a quoted field: it ends the field or escapes another quote

  datatype Reader = Reader(mode: Mode, field: string, fields: Record, records: seq<Record>)

  const START := Reader(FieldStart, "", [], [])

  /** Ends the current field. */
  function EndField(r: Reader): Reader {
    Reader(FieldStart, "", r.fields + [r.field], r.records)
  }

  function EndRecord(r: Reader): Reader {
    Reader(FieldStart, "", [], r.records + [r.fields + [r.field]])
  }

  function Read(r: Reader, c: char): Option<Reader> {
    match r.mode
    case Quoted =>
      Some(if c == '"' then r.(mode := QuoteSeen) else r.(field := r.field + [c]))
    case QuoteSeen =>
      if c == '"' then Some(r.(mode := Quoted, field := r.field + [c]))
      else if c == ',' then Some(EndField(r))
      else if c == '\n' then Some(EndRecord(r))
      else None
    case _ =>
      if c == ',' then Some(EndField(r))
      else if c == '\n' then Some(EndRecord(r))
      else if c == '\r' then None
      else if c == '"' then (if r.mode.FieldStart? then Some(r.(mode := Quoted)) else None)
      else Some(r.(mode := Plain, field := r.field + [c]))
  }

  function ReadAll(r: Reader, text: string): Option<Reader>
    decreases |text|
  {
    if text == "" then Some(r)
    else match Read(r, text[0])
         case None => None
         case Some(next) => ReadAll(next, text[1..])
  }

  /** A text whose last quoted field is left open is malformed. */
  function Parse(text: string): Option<seq<Record>> {
    match ReadAll(START, text)
    case None => None
    case Some(r) => if r.mode.Quoted? then None else Some(EndRecord(r).records)
  }

  // ---- Reading back what was written ----------------------------------------------------------

  lemma {:induction false} ReadAllAppends(r: Reader, a: string, b: string)
    ensures ReadAll(r, a + b) == match ReadAll(r, a) case None => None case Some(m) => ReadAll(m, b)
    decreases |a|
  {
    if a == "" {
      assert a + b == b;
    } else {
      assert (a + b)[0] == a[0] && (a + b)[1..] == a[1..] + b;
      var next := Read(r, a[0]);
      if next.Some? {
        ReadAllAppends(next.value, a[1..], b);
      }
    }
  }

  lemma ReadOne(r: Reader, c: char)
    ensures ReadAll(r, [c]) == Read(r, c)
  {
    var next := Read(r, c);
    if next.Some? {
      assert [c][1..] == "";
    }
  }

  lemma ReadCharacter(r: Reader, c: char)
    requires r.mode.Quoted?
    ensures ReadAll(r, if c == '"' then "\"\"" else [c]) == Some(r.(field := r.field + [c]))
  {
    if c == '"' {
      assert "\"\"" == ['"'] + ['"'];
      ReadAllAppends(r, ['"'], ['"']);
      ReadOne(r, '"');
      ReadOne(r.(mode := QuoteSeen), '"');
    } else {
      ReadOne(r, c);
    }
  }

  /** Doubled quotes read back as the characters they stand for. */
  lemma {:induction false} ReadDoubled(r: Reader, s: string)
    requires r.mode.Quoted?
    ensures ReadAll(r, DoubleQuotes(s)) == Some(r.(field := r.field + s))
    decreases |s|
  {
    if s == "" {
      assert r.field + s == r.field;
    } else {
      var head := if s[0] == '"' then "\"\"" else [s[0]];
      var after := r.(field := r.field + [s[0]]);
      ReadAllAppends(r, head, DoubleQuotes(s[1..]));
      ReadCharacter(r, s[0]);
      ReadDoubled(after, s[1..]);
      assert r.field + [s[0]] + s[1..] == r.field + s;
    }
  }

  /** The reader has a whole field in hand and may end it. */
  ghost predicate Holds(r: Reader, start: Reader, field: string) {
    !r.mode.Quoted? && r == start.(mode := r.mode, field := field)
  }

  /** From the start of a field, the text reads as one whole field. */
  ghost predicate Reads(text: string, field: string) {
    forall r: Reader :: r.mode.FieldStart? && r.field == "" ==>
      ReadAll(r, text).Some? && Holds(ReadAll(r, text).value, r, field)
  }

  lemma ReadsEncoded(field: string)
    ensures Reads(EncodeField(field), field)
  {
    forall r: Reader | r.mode.FieldStart? && r.field == ""
      ensures ReadAll(r, EncodeField(field)) == Some(r.(mode := QuoteSeen, field := field))
    {
      var inside := r.(mode := Quoted);
      ReadAllAppends(r, "\"", DoubleQuotes(field) + "\"");
      assert EncodeField(field) == "\"" + (DoubleQuotes(field) + "\"");
      ReadOne(r, '"');
      ReadAllAppends(inside, DoubleQuotes(field), "\"");
      ReadDoubled(inside, field);
      assert "" + field == field;
      ReadOne(inside.(field := field), '"');
    }
  }

  predicate BareChar(c: char) {
    c != '"' && c != ',' && c != '\n' && c != '\r'
  }

  /** Text that needs no quotes. */
  predicate Bare(s: string) {
    forall i :: 0 <= i < |s| ==> BareChar(s[i])
  }

  lemma {:induction false} ReadBare(r: Reader, s: string)
    requires r.mode.FieldStart? || r.mode.Plain?
    requires Bare(s)
    ensures var end := ReadAll(r, s); end.Some? && Holds(end.value, r, r.field + s)
    decreases |s|
  {
    if s == "" {
      assert r.field + s == r.field;
    } else {
      ReadBare(r.(mode := Plain, field := r.field + [s[0]]), s[1..]);
      assert r.field + [s[0]] + s[1..] == r.field + s;
    }
  }

  lemma ReadsBare(s: string)
    requires Bare(s)
    ensures Reads(s, s)
  {
    forall r: Reader | r.mode.FieldStart? && r.field == ""
      ensures ReadAll(r, s).Some? && Holds(ReadAll(r, s).value, r, s)
    {
      ReadBare(r, s);
      assert "" + s == s;
    }
  }

  // ---- Records ---------------------------------------------------------------------------------

  ghost predicate ReadsEach(parts: seq<string>, fields: Record) {
    |parts| == |fields| && forall i :: 0 <= i < |parts| ==> Reads(parts[i], fields[i])
  }

  /** The reader is at the end of a record and only its break is missing. */
  ghost predicate Ready(r: Reader, fields: Record, records: seq<Record>) {
    !r.mode.Quoted? && r.records == records && r.fields + [r.field] == fields
  }

  /** Each part with the comma in front. */
  function Tail(parts: seq<string>): string {
    if parts == [] then "" else "," + parts[0] + Tail(parts[1..])
  }

  lemma {:induction false} JoinAsTail(parts: seq<string>)
    requires parts != []
    ensures Join(parts, ",") == parts[0] + Tail(parts[1..])
  {
    if |parts| > 1 {
      JoinAsTail(parts[1..]);
    }
  }

  lemma ReadCommaAndField(r: Reader, part: string, field: string)
    requires !r.mode.Quoted? && Reads(part, field)
    ensures var end := ReadAll(r, "," + part);
            end.Some? && !end.value.mode.Quoted?
            && end.value == Reader(end.value.mode, field, r.fields + [r.field], r.records)
  {
    ReadAllAppends(r, ",", part);
    ReadOne(r, ',');
    EndsField(r);
  }

  lemma FirstAndRest(before: Record, fields: Record)
    requires fields != []
    ensures before + [fields[0]] + fields[1..] == before + fields
  {
  }

  lemma TailStep(parts: seq<string>)
    requires parts != []
    ensures Tail(parts) == "," + parts[0] + Tail(parts[1..])
  {
  }

  lemma {:induction false} ReadTail(r: Reader, parts: seq<string>, fields: Record)
    requires !r.mode.Quoted? && ReadsEach(parts, fields)
    ensures var end := ReadAll(r, Tail(parts)); end.Some? && Ready(end.value, r.fields + [r.field] + fields, r.records)
    decreases |parts|
  {
    if parts == [] {
      assert r.fields + [r.field] + fields == r.fields + [r.field];
    } else {
      var head, rest := "," + parts[0], Tail(parts[1..]);
      TailStep(parts);
      ReadAllAppends(r, head, rest);
      assert Reads(parts[0], fields[0]);
      ReadCommaAndField(r, parts[0], fields[0]);
      ReadTail(ReadAll(r, head).value, parts[1..], fields[1..]);
      FirstAndRest(r.fields + [r.field], fields);
    }
  }

  /** Texts that read as fields, joined by commas, read as a record. */
  lemma ReadJoined(r: Reader, parts: seq<string>, fields: Record)
    requires r.mode.FieldStart? && r.field == "" && parts != [] && ReadsEach(parts, fields)
    ensures var end := ReadAll(r, Join(parts, ",")); end.Some? && Ready(end.value, r.fields + fields, r.records)
  {
    JoinAsTail(parts);
    ReadAllAppends(r, parts[0], Tail(parts[1..]));
    assert Reads(parts[0], fields[0]);
    var first := ReadAll(r, parts[0]).value;
    ReadTail(first, parts[1..], fields[1..]);
    FirstAndRest(r.fields, fields);
  }

  lemma EndsField(r: Reader)
    requires !r.mode.Quoted?
    ensures Read(r, ',') == Some(EndField(r)) && Read(r, '\n') == Some(EndRecord(r))
  {
  }

  lemma {:induction false} EncodedReadsEach(fields: Record)
    ensures ReadsEach(EncodeFields(fields), fields)
  {
    if fields != [] {
      EncodedReadsEach(fields[1..]);
      ReadsEncoded(fields[0]);
    }
  }

  lemma ReadRecord(r: Reader, fields: Record)
    requires r.mode.FieldStart? && r.field == "" && r.fields == [] && fields != []
    ensures var end := ReadAll(r, EncodeRecord(fields)); end.Some? && Ready(end.value, fields, r.records)
  {
    EncodedReadsEach(fields);
    ReadJoined(r, EncodeFields(fields), fields);
    assert [] + fields == fields;
  }

  predicate BareRecord(fields: Record) {
    forall i :: 0 <= i < |fields| ==> Bare(fields[i])
  }

  lemma ReadHeader(r: Reader, fields: Record)
    requires r.mode.FieldStart? && r.field == "" && r.fields == [] && fields != [] && BareRecord(fields)
    ensures var end := ReadAll(r, Join(fields, ",")); end.Some? && Ready(end.value, fields, r.records)
  {
    forall i | 0 <= i < |fields| ensures Reads(fields[i], fields[i]) {
      ReadsBare(fields[i]);
    }
    ReadJoined(r, fields, fields);
    assert [] + fields == fields;
  }

  // ---- Lines -----------------------------------------------------------------------------------

  lemma ReadLine(r: Reader, last: Record, records: seq<Record>, row: Record)
    requires Ready(r, last, records) && row != []
    ensures var end := ReadAll(r, "\n" + EncodeRecord(row)); end.Some? && Ready(end.value, row, records + [last])
  {
    ReadAllAppends(r, "\n", EncodeRecord(row));
    ReadOne(r, '\n');
    EndsField(r);
    ReadRecord(EndRecord(r), row);
  }

  /** Rows follow a record that is ready to end, each after a line feed. */
  lemma {:induction false} ReadRows(r: Reader, last: Record, records: seq<Record>, rows: seq<Record>)
    requires Ready(r, last, records)
    requires forall i :: 0 <= i < |rows| ==> rows[i] != []
    ensures var end := ReadAll(r, Lines(rows));
            end.Some? && !end.value.mode.Quoted? && EndRecord(end.value).records == records + [last] + rows
    decreases |rows|
  {
    if rows == [] {
      assert records + [last] + rows == records + [last];
    } else {
      var line, rest := "\n" + EncodeRecord(rows[0]), Lines(rows[1..]);
      ReadAllAppends(r, line, rest);
      ReadLine(r, last, records, rows[0]);
      ReadRows(ReadAll(r, line).value, rows[0], records + [last], rows[1..]);
      assert records + [last] + [rows[0]] + rows[1..] == records + [last] + rows;
    }
  }

  /** Each row on a line of its own, the line feed in front. */
  function Lines(rows: seq<Record>): string {
    if rows == [] then "" else "\n" + EncodeRecord(rows[0]) + Lines(rows[1..])
  }

  lemma {:induction false} JoinedLines(first: string, rows: seq<Record>)
    ensures Join([first] + EncodeRecords(rows), "\n") == first + Lines(rows)
    decreases |rows|
  {
    if rows != [] {
      var next, rest := EncodeRecord(rows[0]), rows[1..];
      JoinStep(first, EncodeRecords(rows), "\n");
      JoinedLines(next, rest);
      Reassociate(first, next, Lines(rest));
    }
  }

  lemma Reassociate(a: string, b: string, c: string)
    ensures a + "\n" + (b + c) == a + ("\n" + b + c)
  {
  }

  /** Whatever the fields contain, reading the export returns the header and exactly the rows. */
  lemma ExportReadsBack(header: Record, rows: seq<Record>)
    requires header != [] && BareRecord(header)
    requires forall i :: 0 <= i < |rows| ==> rows[i] != []
    ensures Parse(Export(header, rows)) == Some([header] + rows)
  {
    var first := Join(header, ",");
    JoinedLines(first, rows);
    ReadAllAppends(START, first, Lines(rows));
    ReadHeader(START, header);
    ReadRows(ReadAll(START, first).value, header, [], rows);
    assert [] + [header] + rows == [header] + rows;
  }

  /** So no two exports look alike. */
  lemma ExportIsInjective(header: Record, rows: seq<Record>, others: seq<Record>)
    requires header != [] && BareRecord(header)
    requires forall i :: 0 <= i < |rows| ==> rows[i] != []
    requires forall i :: 0 <= i < |others| ==> others[i] != []
    requires Export(header, rows) == Export(header, others)
    ensures rows == others
  {
    ExportReadsBack(header, rows);
    ExportReadsBack(header, others);
    assert ([header] + rows)[1..] == rows && ([header] + others)[1..] == others;
  }

  // ---- The two exports ---------------------------------------------------------------------------

  // The headers, two columns at a time.

  const PERSON: Record := ["Application Number", "Full Name"]
  const CONTACT: Record := ["Email", "Phone Number"]
  const COURSE: Record := ["Study Type", "Course Name"]
  const LOAN: Record := ["Board/University", "Loan Amount (NPR)"]
  const IDENTITY: Record := ["Identity Type", "Province"]
  const SUBMISSION: Record := ["District", "Submitted At"]
  const APPLICATION_HEADER: Record := PERSON + CONTACT + COURSE + LOAN + IDENTITY + SUBMISSION

  const ACTOR: Record := ["Timestamp", "User"]
  const KIND: Record := ["Role", "Category"]
  const EVENT: Record := ["Action", "Application ID"]
  const PAYLOAD: Record := ["Payload"]
  const AUDIT_HEADER: Record := ACTOR + KIND + EVENT + PAYLOAD

  lemma PersonIsBare()
    ensures BareRecord(PERSON)
  {
  }

  lemma ContactIsBare()
    ensures BareRecord(CONTACT)
  {
  }

  lemma CourseIsBare()
    ensures BareRecord(COURSE)
  {
  }

  lemma LoanIsBare()
    ensures BareRecord(LOAN)
  {
  }

  lemma IdentityIsBare()
    ensures BareRecord(IDENTITY)
  {
  }

  lemma SubmissionIsBare()
    ensures BareRecord(SUBMISSION)
  {
  }

  lemma ActorIsBare()
    ensures BareRecord(ACTOR)
  {
  }

  lemma KindIsBare()
    ensures BareRecord(KIND)
  {
  }

  lemma EventIsBare()
    ensures BareRecord(EVENT)
  {
  }

  lemma PayloadIsBare()
    ensures BareRecord(PAYLOAD)
  {
  }

  lemma BareRecordsConcatenate(a: Record, b: Record)
    requires BareRecord(a) && BareRecord(b)
    ensures BareRecord(a + b)
  {
  }

  lemma ApplicationHeaderIsBare()
    ensures BareRecord(APPLICATION_HEADER)
  {
    PersonIsBare();
    ContactIsBare();
    CourseIsBare();
    LoanIsBare();
    IdentityIsBare();
    SubmissionIsBare();
    BareRecordsConcatenate(PERSON, CONTACT);
    BareRecordsConcatenate(PERSON + CONTACT, COURSE);
    BareRecordsConcatenate(PERSON + CONTACT + COURSE, LOAN);
    BareRecordsConcatenate(PERSON + CONTACT + COURSE + LOAN, IDENTITY);
    BareRecordsConcatenate(PERSON + CONTACT + COURSE + LOAN + IDENTITY, SUBMISSION);
  }

  lemma AuditHeaderIsBare()
    ensures BareRecord(AUDIT_HEADER)
  {
    ActorIsBare();
    KindIsBare();
    EventIsBare();
    PayloadIsBare();
    BareRecordsConcatenate(ACTOR, KIND);
    BareRecordsConcatenate(ACTOR + KIND, EVENT);
    BareRecordsConcatenate(ACTOR + KIND + EVENT, PAYLOAD);
  }

  /** Every export of applications reads back: the header line, then the rows as they were. */
  lemma ApplicationExportReadsBack(rows: seq<Record>)
    requires forall i :: 0 <= i < |rows| ==> |rows[i]| == |APPLICATION_HEADER|
    ensures Parse(Export(APPLICATION_HEADER, rows)) == Some([APPLICATION_HEADER] + rows)
  {
    ApplicationHeaderIsBare();
    ExportReadsBack(APPLICATION_HEADER, rows);
  }

  /** Likewise every export of the audit log, whatever its JSON payloads contain. */
  lemma AuditExportReadsBack(rows: seq<Record>)
    requires forall i :: 0 <= i < |rows| ==> |rows[i]| == |AUDIT_HEADER|
    ensures Parse(Export(AUDIT_HEADER, rows)) == Some([AUDIT_HEADER] + rows)
  {
    AuditHeaderIsBare();
    ExportReadsBack(AUDIT_HEADER, rows);
  }
}
