/** The CSV export of all tasks against a reader written from section 2 of RFC 4180, which also accepts a bare
    line feed as a line end. */
module CsvExport {
  import opened Prelude
  import opened Texts

  // ------------------------------------------------------------------ the reader

  /** A character that may stand in an unquoted field. */
  predicate TextData(c: char) {
    c != ',' && c != '"' && c != '\r' && c != '\n'
  }

  datatype Field = Field(text: string, rest: string)
  datatype Record = Record(fields: seq<string>, rest: string)

  /** The longest run of text data. */
  function ReadPlain(s: string): (f: Field)
    ensures |f.rest| <= |s|
  {
    if s == "" || !TextData(s[0]) then Field("", s)
    else var f := ReadPlain(s[1..]); Field([s[0]] + f.text, f.rest)
  }

  /** What follows an opening quote: two quotes stand for one, one quote closes the field. */
  function ReadQuoted(s: string): (f: Option<Field>)
    ensures f.Some? ==> |f.value.rest| < |s|
    decreases |s|
  {
    if s == "" then None
    else if s[0] == '"' && |s| > 1 && s[1] == '"' then
      var f := ReadQuoted(s[2..]);
      if f.Some? then Some(Field("\"" + f.value.text, f.value.rest)) else None
    else if s[0] == '"' then Some(Field("", s[1..]))
    else
      var f := ReadQuoted(s[1..]);
      if f.Some? then Some(Field([s[0]] + f.value.text, f.value.rest)) else None
  }

  function ReadField(s: string): (f: Option<Field>)
    ensures f.Some? ==> |f.value.rest| <= |s|
  {
    if s != "" && s[0] == '"' then ReadQuoted(s[1..]) else Some(ReadPlain(s))
  }

  /** The text after a line end at the front, if there is one. */
  function AfterLineEnd(s: string): (r: Option<string>)
    ensures r.Some? ==> |r.value| <= |s| && (s != "" ==> |r.value| < |s|)
  {
    if s == "" then Some("")
    else if s[0] == '\n' then Some(s[1..])
    else if s[0] == '\r' && |s| > 1 && s[1] == '\n' then Some(s[2..])
    else None
  }

  function ReadRecord(s: string): (r: Option<Record>)
    ensures r.Some? ==> |r.value.rest| <= |s| && (s != "" ==> |r.value.rest| < |s|)
    ensures r.Some? ==> r.value.fields != []
    decreases |s|
  {
    var f := ReadField(s);
    if f.None? then None
    else if f.value.rest != "" && f.value.rest[0] == ',' then
      var more := ReadRecord(f.value.rest[1..]);
      if more.None? then None else Some(Record([f.value.text] + more.value.fields, more.value.rest))
    else
      var after := AfterLineEnd(f.value.rest);
      if after.None? then None else Some(Record([f.value.text], after.value))
  }

  function ReadFile(s: string): Option<seq<seq<string>>>
    decreases |s|
  {
    if s == "" then Some([])
    else
      var r := ReadRecord(s);
      if r.None? then None
      else
        var more := ReadFile(r.value.rest);
        if more.None? then None else Some([r.value.fields] + more.value)
  }

  // ----------------------------------------------------------------- the printer

  /** replacingOccurrences of a quote with two. */
  function Doubled(text: string): string {
    if text == "" then ""
    else if text[0] == '"' then "\"\"" + Doubled(text[1..])
    else [text[0]] + Doubled(text[1..])
  }

  function EscapeCsv(text: string): string {
    "\"" + Doubled(text) + "\""
  }

  datatype Cell = Bare(text: string) | Escaped(text: string)

  function Printed(c: Cell): string {
    match c
    case Bare(text) => text
    case Escaped(text) => EscapeCsv(text)
  }

  function Line(cells: seq<Cell>): string
    requires cells != []
  {
    if |cells| == 1 then Printed(cells[0]) + "\n" else Printed(cells[0]) + "," + Line(cells[1..])
  }

  function Contents(cells: seq<Cell>): (r: seq<string>)
    ensures |r| == |cells|
  {
    seq(|cells|, i requires 0 <= i < |cells| => cells[i].text)
  }

  /** A task as it is exported; dates are the texts the formatter makes of them, empty for none. */
  datatype ExportTask = ExportTask(
    id: string,
    title: string,
    categories: seq<string>,
    priority: string,
    dueDate: string,
    nagDate: string,
    completedAt: string,
    createdAt: string,
    taskNotes: Option<string>)

  function Notes(t: ExportTask): string {
    if t.taskNotes.Some? then t.taskNotes.value else ""
  }

  function HeaderCells(): (r: seq<Cell>)
    ensures |r| == 10
  {
    [Bare("Type"), Bare("ID"), Bare("Title"), Bare("Categories"), Bare("Priority"), Bare("Due Date"), Bare("Nag Date"),
     Bare("Completed At"), Bare("Created At"), Bare("Notes")]
  }

  function RowCells(t: ExportTask): (r: seq<Cell>)
    ensures |r| == 10
  {
    [Bare("Task"), Bare(t.id), Escaped(t.title), Escaped(Joined(t.categories, "; ")), Bare(t.priority), Bare(t.dueDate),
     Bare(t.nagDate), Bare(t.completedAt), Bare(t.createdAt), Escaped(Notes(t))]
  }

  function Lines(tasks: seq<ExportTask>): string {
    if tasks == [] then "" else Line(RowCells(tasks[0])) + Lines(tasks[1..])
  }

  function CsvText(tasks: seq<ExportTask>): string {
    Line(HeaderCells()) + Lines(tasks)
  }

  lemma {:induction false} LinesAppend(tasks: seq<ExportTask>, t: ExportTask)
    ensures Lines(tasks + [t]) == Lines(tasks) + Line(RowCells(t))
  {
    hide RowCells, Line;
    if tasks == [] {
      assert tasks + [t] == [t] && [t][1..] == [];
    } else {
      LinesAppend(tasks[1..], t);
      assert (tasks + [t])[1..] == tasks[1..] + [t];
    }
  }

  function Comma(first: string, rest: string): string {
    first + "," + rest
  }

  lemma LineStep(cells: seq<Cell>, k: nat)
    requires k < |cells| - 1
    ensures Line(cells[k..]) == Comma(Printed(cells[k]), Line(cells[k + 1..]))
  {
    assert cells[k..][1..] == cells[k + 1..];
  }

  /** A line of ten cells, written out from the end. */
  lemma FiveCells(cells: seq<Cell>)
    requires |cells| == 10
    ensures Line(cells[5..]) == Comma(Printed(cells[5]), Comma(Printed(cells[6]), Comma(Printed(cells[7]),
                                  Comma(Printed(cells[8]), Printed(cells[9]) + "\n"))))
  {
    assert Line(cells[9..]) == Printed(cells[9]) + "\n";
    hide Line, Comma, Printed;
    LineStep(cells, 8); LineStep(cells, 7); LineStep(cells, 6); LineStep(cells, 5);
  }

  lemma TenCells(cells: seq<Cell>)
    requires |cells| == 10
    ensures Line(cells) == Comma(Printed(cells[0]), Comma(Printed(cells[1]), Comma(Printed(cells[2]),
                             Comma(Printed(cells[3]), Comma(Printed(cells[4]), Line(cells[5..]))))))
  {
    hide Line, Comma, Printed;
    LineStep(cells, 4); LineStep(cells, 3); LineStep(cells, 2); LineStep(cells, 1); LineStep(cells, 0);
    assert cells[0..] == cells;
  }

  /** The interpolated line of generateCSV. */
  lemma RowLine(t: ExportTask)
    ensures Line(RowCells(t))
         == Comma("Task", Comma(t.id, Comma(EscapeCsv(t.title), Comma(EscapeCsv(Joined(t.categories, "; ")),
            Comma(t.priority, Comma(t.dueDate, Comma(t.nagDate, Comma(t.completedAt, Comma(t.createdAt,
            EscapeCsv(Notes(t)) + "\n")))))))))
  {
    hide Line, Comma, EscapeCsv, Joined, Notes;
    FiveCells(RowCells(t));
    TenCells(RowCells(t));
  }

  /** Type,ID,Title,Categories,Priority,Due Date,Nag Date,Completed At,Created At,Notes */
  function HeaderText(): string {
    Comma("Type", Comma("ID", Comma("Title", Comma("Categories", Comma("Priority", Comma("Due Date", Comma("Nag Date",
      Comma("Completed At", Comma("Created At", "Notes" + "\n")))))))))
  }

  lemma HeaderLine()
    ensures Line(HeaderCells()) == HeaderText()
  {
    hide Line, Comma, EscapeCsv;
    FiveCells(HeaderCells());
    TenCells(HeaderCells());
  }

  /** generateCSV. */
  method GenerateCsv(tasks: seq<ExportTask>) returns (csv: string)
    ensures csv == CsvText(tasks)
    ensures ReadFile(csv) == Some([Contents(HeaderCells())] + Rows(tasks)) <==> forall t :: t in tasks ==> Printable(t)
  {
    ExportIsReadIff(tasks);
    hide ReadFile, Printable, Rows;
    hide Lines, Line, RowCells, HeaderCells, EscapeCsv, Joined, Comma;
    csv := HeaderText();
    HeaderLine();
    ghost var header := csv;
    NoLines();
    for k := 0 to |tasks|
      invariant csv == header + Lines(tasks[..k])
    {
      var task := tasks[k];
      var title := EscapeCsv(task.title);
      var categories := EscapeCsv(Joined(task.categories, "; "));
      var taskNotes := EscapeCsv(Notes(task));
      var line := Comma("Task", Comma(task.id, Comma(title, Comma(categories, Comma(task.priority, Comma(task.dueDate,
        Comma(task.nagDate, Comma(task.completedAt, Comma(task.createdAt, taskNotes + "\n")))))))));
      RowLine(task);
      LinesAppend(tasks[..k], task);
      assert tasks[..k + 1] == tasks[..k] + [task];
      csv := csv + line;
    }
    assert tasks[..|tasks|] == tasks;
  }

  lemma NoLines()
    ensures Lines([]) == ""
  {
  }

  // ------------------------------------------------------------------- one field

  predicate Plain(text: string) {
    forall c :: c in text ==> TextData(c)
  }

  lemma {:induction false} ReadPlainIsPlain(s: string)
    ensures Plain(ReadPlain(s).text)
  {
    if s != "" && TextData(s[0]) {
      ReadPlainIsPlain(s[1..]);
    }
  }

  lemma {:induction false} PlainIsRead(text: string, rest: string)
    requires Plain(text) && (rest == "" || !TextData(rest[0]))
    ensures ReadPlain(text + rest) == Field(text, rest)
  {
    if text == "" {
      assert text + rest == rest;
    } else {
      assert text[0] in text;
      PlainIsRead(text[1..], rest);
      assert (text + rest)[1..] == text[1..] + rest;
    }
  }

  /** What was escaped is read back, whatever it is. */
  lemma {:induction false} QuotedIsRead(text: string, rest: string)
    requires rest == "" || rest[0] != '"'
    ensures ReadQuoted(Doubled(text) + "\"" + rest) == Some(Field(text, rest))
  {
    var s := Doubled(text) + "\"" + rest;
    if text == "" {
      assert s == "\"" + rest && s[1..] == rest;
    } else {
      var more := Doubled(text[1..]) + "\"" + rest;
      QuotedIsRead(text[1..], rest);
      if text[0] == '"' {
        assert s == "\"\"" + more && s[2..] == more;
      } else {
        assert s == [text[0]] + more && s[1..] == more;
      }
      assert [text[0]] + text[1..] == text;
    }
  }

  /** Quotes at the front. */
  function Quotes(s: string): nat {
    if s == "" || s[0] != '"' then 0 else 1 + Quotes(s[1..])
  }

  lemma {:induction false} QuotesBefore(text: string, rest: string)
    requires rest == "" || rest[0] != '"'
    ensures Quotes(text + rest) == Quotes(text)
  {
    if text == "" {
      assert text + rest == rest;
    } else {
      QuotesBefore(text[1..], rest);
      assert (text + rest)[1..] == text[1..] + rest;
    }
  }

  /** A quoted field begins with half as many quotes as the text it was read from. */
  lemma {:induction false} QuotesHalved(s: string)
    requires ReadQuoted(s).Some?
    ensures Quotes(ReadQuoted(s).value.text) == Quotes(s) / 2
    decreases |s|
  {
    if s[0] == '"' && |s| > 1 && s[1] == '"' {
      QuotesHalved(s[2..]);
      assert s[1..][1..] == s[2..];
      var t := ReadQuoted(s[2..]).value.text;
      assert ("\"" + t)[1..] == t;
    } else if s[0] != '"' {
      QuotesHalved(s[1..]);
    }
  }

  /** Text that was not escaped is read back exactly when it holds no separator, quote or line end. */
  lemma BareIsReadIff(text: string, rest: string)
    requires rest != "" && (rest[0] == ',' || rest[0] == '\n')
    ensures Plain(text) ==> ReadField(text + rest) == Some(Field(text, rest))
    ensures ReadField(text + rest).Some? && ReadField(text + rest).value.text == text ==> Plain(text)
  {
    var s := text + rest;
    if s[0] == '"' {
      assert text != "" && text[0] in text;
      if ReadField(s).Some? {
        QuotesBefore(text, rest);
        QuotesHalved(s[1..]);
        assert Quotes(s) == 1 + Quotes(s[1..]);
      }
    } else {
      ReadPlainIsPlain(s);
      if Plain(text) { PlainIsRead(text, rest); }
    }
  }

  lemma EscapedIsRead(text: string, rest: string)
    requires rest == "" || rest[0] != '"'
    ensures ReadField(EscapeCsv(text) + rest) == Some(Field(text, rest))
  {
    QuotedIsRead(text, rest);
    assert (EscapeCsv(text) + rest)[1..] == Doubled(text) + "\"" + rest;
  }

  predicate CellOk(c: Cell) {
    c.Bare? ==> Plain(c.text)
  }

  lemma CellIsReadIff(c: Cell, rest: string)
    requires rest != "" && (rest[0] == ',' || rest[0] == '\n')
    ensures CellOk(c) ==> ReadField(Printed(c) + rest) == Some(Field(c.text, rest))
    ensures ReadField(Printed(c) + rest).Some? && ReadField(Printed(c) + rest).value.text == c.text ==> CellOk(c)
  {
    hide ReadField, Plain, EscapeCsv;
    match c {
      case Bare(text) => BareIsReadIff(text, rest);
      case Escaped(text) => EscapedIsRead(text, rest);
    }
  }

  // ------------------------------------------------------------------ one record

  predicate CellsOk(cells: seq<Cell>) {
    forall c :: c in cells ==> CellOk(c)
  }

  /** A line is read back as its cells exactly when every cell that was not escaped is plain. */
  lemma {:induction false} LineIsReadIff(cells: seq<Cell>, rest: string)
    requires cells != []
    ensures CellsOk(cells) ==> ReadRecord(Line(cells) + rest) == Some(Record(Contents(cells), rest))
    ensures ReadRecord(Line(cells) + rest).Some? && ReadRecord(Line(cells) + rest).value.fields == Contents(cells)
       ==> CellsOk(cells) && ReadRecord(Line(cells) + rest).value.rest == rest
    decreases |cells|
  {
    hide ReadField, Printed, CellOk;
    var c, s := cells[0], Line(cells) + rest;
    assert c in cells;
    if |cells| == 1 {
      assert s == Printed(c) + ("\n" + rest);
      CellIsReadIff(c, "\n" + rest);
      assert ("\n" + rest)[1..] == rest;
      assert Contents(cells) == [c.text];
    } else {
      var more := Line(cells[1..]) + rest;
      assert s == Printed(c) + ("," + more);
      CellIsReadIff(c, "," + more);
      assert ("," + more)[1..] == more;
      LineIsReadIff(cells[1..], rest);
      assert Contents(cells) == [c.text] + Contents(cells[1..]);
      assert Contents(cells)[1..] == Contents(cells[1..]);
      assert forall x :: x in cells <==> x == c || x in cells[1..];
    }
  }

  // ------------------------------------------------------------------ the file

  /** The cells of a task that are printed as they are. */
  predicate Printable(t: ExportTask) {
    && Plain(t.id) && Plain(t.priority) && Plain(t.dueDate) && Plain(t.nagDate) && Plain(t.completedAt)
    && Plain(t.createdAt)
  }

  function Rows(tasks: seq<ExportTask>): seq<seq<string>> {
    if tasks == [] then [] else [Contents(RowCells(tasks[0]))] + Rows(tasks[1..])
  }

  lemma RowOkIff(t: ExportTask)
    ensures CellsOk(RowCells(t)) <==> Printable(t)
  {
    hide Plain;
    TaskIsPlain();
    var cells := RowCells(t);
    assert cells[1] in cells && cells[4] in cells && cells[5] in cells && cells[6] in cells && cells[7] in cells;
    assert cells[8] in cells;
  }

  lemma TaskIsPlain()
    ensures Plain("Task")
  {
  }

  lemma HeaderOk()
    ensures CellsOk(HeaderCells())
  {
    hide Plain;
    ShortHeadersPlain();
    LongHeadersPlain();
  }

  lemma ShortHeadersPlain()
    ensures Plain("Type") && Plain("ID") && Plain("Title") && Plain("Categories") && Plain("Priority") && Plain("Notes")
  {
  }

  lemma LongHeadersPlain()
    ensures Plain("Due Date") && Plain("Nag Date") && Plain("Completed At") && Plain("Created At")
  {
  }

  lemma {:induction false} LinesAreReadIff(tasks: seq<ExportTask>)
    ensures ReadFile(Lines(tasks)) == Some(Rows(tasks)) <==> forall t :: t in tasks ==> Printable(t)
  {
    hide RowCells, Printable, Line, ReadRecord;
    if tasks != [] {
      var cells, more := RowCells(tasks[0]), Lines(tasks[1..]);
      assert tasks[0] in tasks;
      assert forall x :: x in tasks <==> x == tasks[0] || x in tasks[1..];
      RowOkIff(tasks[0]);
      LinesAreReadIff(tasks[1..]);
      LineIsReadIff(cells, more);
      LineNonEmpty(cells);
      FirstRow(Line(cells) + more, Contents(cells), Rows(tasks[1..]));
    }
  }

  lemma LineNonEmpty(cells: seq<Cell>)
    requires cells != []
    ensures Line(cells) != ""
  {
  }

  lemma FirstRow(s: string, row: seq<string>, rows: seq<seq<string>>)
    requires s != ""
    ensures ReadFile(s) == Some([row] + rows)
       <==> ReadRecord(s).Some? && ReadRecord(s).value.fields == row && ReadFile(ReadRecord(s).value.rest) == Some(rows)
  {
    hide ReadRecord;
    if ReadFile(s) == Some([row] + rows) {
      var more := ReadFile(ReadRecord(s).value.rest).value;
      assert ([ReadRecord(s).value.fields] + more)[1..] == more;
      assert ([row] + rows)[1..] == rows;
      assert ([row] + rows)[0] == row;
    }
  }

  /** The export is read back as the header and one row of ten cells per task exactly when no id, priority or
      date text holds a comma, a quote or a line end; titles, categories and notes may hold anything. */
  lemma ExportIsReadIff(tasks: seq<ExportTask>)
    ensures ReadFile(CsvText(tasks)) == Some([Contents(HeaderCells())] + Rows(tasks))
       <==> forall t :: t in tasks ==> Printable(t)
  {
    hide HeaderCells, Line, ReadRecord, Lines, Rows, Printable;
    HeaderOk();
    LineIsReadIff(HeaderCells(), Lines(tasks));
    LineNonEmpty(HeaderCells());
    FirstRow(CsvText(tasks), Contents(HeaderCells()), Rows(tasks));
    LinesAreReadIff(tasks);
  }

  /** A creation date as the formatter writes it in American English breaks its row. */
  lemma AmericanDatesBreakRows(t: ExportTask)
    requires t.createdAt == "1/2/2024, 9:30 AM"
    ensures ReadFile(CsvText([t])) != Some([Contents(HeaderCells())] + Rows([t]))
  {
    hide ReadFile, CsvText, HeaderCells, Rows;
    ExportIsReadIff([t]);
    assert t in [t] && t.createdAt[8] in t.createdAt;
    assert t.createdAt[8] == ',';
  }

  /** What the rows hold. */
  lemma {:induction false} RowsAre(tasks: seq<ExportTask>, i: nat)
    requires i < |tasks|
    ensures Contents(HeaderCells()) ==
              ["Type", "ID", "Title", "Categories", "Priority", "Due Date", "Nag Date", "Completed At", "Created At",
               "Notes"]
    ensures |Rows(tasks)| == |tasks|
    ensures var t := tasks[i];
            Rows(tasks)[i] ==
              ["Task", t.id, t.title, Joined(t.categories, "; "), t.priority, t.dueDate, t.nagDate, t.completedAt,
               t.createdAt, match t.taskNotes case Some(n) => n case None => ""]
    decreases |tasks|
  {
    if |tasks| > 1 { RowsAre(tasks[1..], if i == 0 then 0 else i - 1); }
  }

  function PrintedCells(cells: seq<Cell>): (r: seq<string>)
    ensures |r| == |cells|
  {
    seq(|cells|, i requires 0 <= i < |cells| => Printed(cells[i]))
  }

  /** A line is its cells with commas between them and a line end. */
  lemma {:induction false} LineIsJoined(cells: seq<Cell>)
    requires cells != []
    ensures Line(cells) == Joined(PrintedCells(cells), ",") + "\n"
    decreases |cells|
  {
    hide Printed;
    var ps := PrintedCells(cells);
    if |cells| == 1 {
      assert Joined(ps, ",") == ps[0];
    } else {
      var rest := cells[1..];
      LineIsJoined(rest);
      assert ps[1..] == PrintedCells(rest);
      assert Joined(ps, ",") == ps[0] + "," + Joined(ps[1..], ",");
      assert Line(cells) == ps[0] + "," + Line(rest);
      hide Line, Joined;
    }
  }

  /** The first line of every file. */
  lemma HeaderTextIs()
    ensures HeaderText() ==
              Joined(["Type", "ID", "Title", "Categories", "Priority", "Due Date", "Nag Date", "Completed At",
                      "Created At", "Notes"], ",") + "\n"
  {
    hide Joined, Line, HeaderText;
    HeaderLine();
    LineIsJoined(HeaderCells());
    assert PrintedCells(HeaderCells()) ==
           ["Type", "ID", "Title", "Categories", "Priority", "Due Date", "Nag Date", "Completed At", "Created At",
            "Notes"];
  }
}
