/** The quiz generator page: the validity of its form and the CSV text its
    export button downloads, with a reader for that text showing what a
    spreadsheet recovers from it. */
module QuizExport {
  import opened Wrappers
  import opened JsBuiltins

  // ----- The form -----

  /** The form's values once the question count has been coerced to a number. */
  datatype QuizForm = QuizForm(lessonText: string, questionType: string, numberOfQuestions: JsNumber)

  const QuestionTypes: set<string> := {"multiple choice", "true/false", "short answer"}

  /** The page's schema: a lesson of at least 50 UTF-16 units, one of the three
      question types, and a whole number of questions from 1 to 10. */
  predicate ValidForm(f: QuizForm) {
    && Utf16Length(f.lessonText) >= 50
    && f.questionType in QuestionTypes
    && IsInteger(f.numberOfQuestions)
    && 1.0 <= f.numberOfQuestions.value <= 10.0
  }

  /** The quiz flow's own input schema: any question type of the three and a
      positive whole number of questions. */
  predicate FlowInputValid(f: QuizForm) {
    f.questionType in QuestionTypes && IsInteger(f.numberOfQuestions) && f.numberOfQuestions.value > 0.0
  }

  const DefaultForm: QuizForm := QuizForm("", "multiple choice", Num(5.0))

  /** Whatever the page accepts, the flow accepts too; the untouched form is
      refused for its empty lesson, and only for that. */
  lemma FormSchemaFacts(f: QuizForm)
    ensures ValidForm(f) ==> FlowInputValid(f)
    ensures !ValidForm(DefaultForm)
    ensures ValidForm(DefaultForm.(lessonText := f.lessonText)) <==> Utf16Length(f.lessonText) >= 50
  {
    assert Utf16Length(DefaultForm.lessonText) == 0;
    assert IsInteger(Num(5.0)) by { assert (5.0).Floor == 5; }
  }

  // ----- The questions and the CSV text -----

  datatype Question = Question(question: string, options: seq<string>, answer: string)

  /** A cell as the exporter writes it: in quotes with inner quotes doubled, or
      as bare text. */
  datatype Cell = Quoted(text: string) | Bare(text: string)

  function Quote(s: string): (r: string)
    ensures |r| >= 2 && r[0] == '"' && r[|r| - 1] == '"'
  {
    "\"" + DoubleQuotes(s) + "\""
  }

  function Encode(c: Cell): string {
    match c
    case Quoted(t) => Quote(t)
    case Bare(t) => t
  }

  function EncodeAll(cells: seq<Cell>): (r: seq<string>)
    ensures |r| == |cells|
  {
    if cells == [] then [] else [Encode(cells[0])] + EncodeAll(cells[1..])
  }

  /** The texts the cells stand for. */
  function Values(cells: seq<Cell>): (r: seq<string>)
    ensures |r| == |cells|
  {
    if cells == [] then [] else [cells[0].text] + Values(cells[1..])
  }

  /** One line of the file: the encoded cells joined by commas. */
  function Line(cells: seq<Cell>): string {
    Join(EncodeAll(cells), ",")
  }

  const HeaderNames: seq<string> :=
    ["question", "choice_a", "choice_b", "choice_c", "choice_d", "correct"]

  const HeaderCells: seq<Cell> :=
    [Bare("question"), Bare("choice_a"), Bare("choice_b"), Bare("choice_c"), Bare("choice_d"), Bare("correct")]

  /** The answer and an option name the same thing when they agree after
      lower-casing and trimming. */
  predicate SameAnswer(option: string, answer: string) {
    Trim(Lower(option)) == Trim(Lower(answer))
  }

  /** `findIndex` of the first option naming the answer, or -1. */
  function MatchIndex(options: seq<string>, answer: string): (r: int)
    ensures -1 <= r < |options|
    ensures r >= 0 ==> SameAnswer(options[r], answer)
    ensures forall j {:trigger SameAnswer(options[j], answer)} | 0 <= j < |options| && (r < 0 || j < r) ::
      !SameAnswer(options[j], answer)
  {
    if options == [] then -1
    else if SameAnswer(options[0], answer) then 0
    else
      var r := MatchIndex(options[1..], answer);
      assert forall j | 1 <= j < |options| :: options[j] == options[1..][j - 1];
      if r < 0 then -1 else r + 1
  }

  /** `String.fromCharCode(n)`: the UTF-16 unit `n` modulo 2^16. A lone
      surrogate has no `char` here and is shown as U+FFFD. */
  function FromCharCode(n: int): string {
    var u := n % 0x10000;
    if 0xD800 <= u < 0xE000 then "\U{FFFD}" else [u as char]
  }

  /** The letter of the first matching option (over all options, not only the
      four exported), or the answer as given. */
  function CorrectLetter(q: Question): string {
    var i := MatchIndex(q.options, q.answer);
    if i != -1 then FromCharCode(65 + i) else q.answer
  }

  /** The four choice columns: the first four options, then empty bare cells. */
  function OptionSlot(options: seq<string>, i: nat): Cell {
    if i < |options| then Quoted(options[i]) else Bare("")
  }

  function SlotCells(options: seq<string>): (r: seq<Cell>)
    ensures |r| == 4
  {
    [OptionSlot(options, 0), OptionSlot(options, 1), OptionSlot(options, 2), OptionSlot(options, 3)]
  }

  function RowCells(q: Question): (r: seq<Cell>)
    ensures |r| == 6
  {
    [Quoted(q.question)] + SlotCells(q.options) + [Quoted(CorrectLetter(q))]
  }

  function RowLines(qs: seq<Question>): (r: seq<string>)
    ensures |r| == |qs|
  {
    if qs == [] then [] else [Line(RowCells(qs[0]))] + RowLines(qs[1..])
  }

  lemma CsvLinesSnoc(qs: seq<Question>, k: nat)
    requires k < |qs|
    ensures CsvLines(qs[..k + 1]) == CsvLines(qs[..k]) + [Line(RowCells(qs[k]))]
  {
    assert qs[..k + 1] == qs[..k] + [qs[k]];
    RowLinesAppend(qs[..k], [qs[k]]);
  }

  lemma {:induction false} RowLinesAppend(a: seq<Question>, b: seq<Question>)
    ensures RowLines(a + b) == RowLines(a) + RowLines(b)
  {
    if a != [] {
      assert (a + b)[1..] == a[1..] + b;
      RowLinesAppend(a[1..], b);
    } else {
      assert a + b == b;
    }
  }

  /** The downloaded text: the header line and one line per question, joined
      by newlines with none at the end. */
  function CsvContent(qs: seq<Question>): string {
    Join(CsvLines(qs), "\n")
  }

  function CsvLines(qs: seq<Question>): seq<string> {
    [Line(HeaderCells)] + RowLines(qs)
  }

  /** The four choice cells: empty, then the first four options written over
      them in quotes. */
  method OptionCells(options: seq<string>) returns (cells: seq<string>)
    ensures cells == EncodeAll(SlotCells(options))
  {
    cells := ["", "", "", ""];
    if |options| > 0 {
      var first := options[..if |options| < 4 then |options| else 4];
      var i := 0;
      while i < |first|
        invariant 0 <= i <= |first|
        invariant |cells| == 4
        invariant forall j | 0 <= j < 4 :: cells[j] == if j < i then Quote(first[j]) else ""
      {
        cells := cells[i := Quote(first[i])];
        i := i + 1;
      }
    }
    SlotTexts(options);
    var want := EncodeAll(SlotCells(options));
    forall j | 0 <= j < 4
      ensures cells[j] == want[j]
    {
      assert cells[j] == Encode(OptionSlot(options, j));
    }
  }

  lemma SlotTexts(options: seq<string>)
    ensures EncodeAll(SlotCells(options)) ==
      [Encode(OptionSlot(options, 0)), Encode(OptionSlot(options, 1)),
       Encode(OptionSlot(options, 2)), Encode(OptionSlot(options, 3))]
  {
    var a, b, c, d := OptionSlot(options, 0), OptionSlot(options, 1), OptionSlot(options, 2), OptionSlot(options, 3);
    assert SlotCells(options) == [a, b] + [c, d];
    EncodeAllAppend([a, b], [c, d]);
    EncodeAllAppend([a], [b]);
    EncodeAllAppend([c], [d]);
    assert [a] + [b] == [a, b] && [c] + [d] == [c, d];
  }

  lemma RowAssembly(q: Question, options: seq<string>, letter: string)
    requires options == EncodeAll(SlotCells(q.options))
    requires letter == CorrectLetter(q)
    ensures Join([Quote(q.question)] + options + [Quote(letter)], ",") == Line(RowCells(q))
  {
    var slots := SlotCells(q.options);
    EncodeAllAppend([Quoted(q.question)], slots);
    EncodeAllAppend([Quoted(q.question)] + slots, [Quoted(letter)]);
    assert EncodeAll([Quoted(q.question)]) == [Quote(q.question)];
    assert EncodeAll([Quoted(letter)]) == [Quote(letter)];
  }

  lemma {:induction false} EncodeAllAppend(a: seq<Cell>, b: seq<Cell>)
    ensures EncodeAll(a + b) == EncodeAll(a) + EncodeAll(b)
  {
    if a != [] {
      assert (a + b)[1..] == a[1..] + b;
      EncodeAllAppend(a[1..], b);
    } else {
      assert a + b == b;
    }
  }

  lemma HeaderLine()
    ensures Line(HeaderCells) == Join(HeaderNames, ",")
  {
    assert EncodeAll(HeaderCells) == HeaderNames;
  }

  lemma HeaderValues()
    ensures Values(HeaderCells) == HeaderNames
  {
  }

  /** The body of the export's `forEach`: the six cells of one question joined
      by commas. */
  method ExportRow(q: Question) returns (line: string)
    ensures line == Line(RowCells(q))
  {
    var escapedQuestion := Quote(q.question);
    var options := OptionCells(q.options);
    var correctOptionIndex := MatchIndex(q.options, q.answer);
    var correctLetter := q.answer;
    if correctOptionIndex != -1 {
      correctLetter := FromCharCode(65 + correctOptionIndex);
    }
    var escapedAnswer := Quote(correctLetter);
    RowAssembly(q, options, correctLetter);
    line := Join([escapedQuestion] + options + [escapedAnswer], ",");
  }

  /** `handleExportCSV`: nothing without a quiz; otherwise the header line and
      the rows, pushed in order and joined by newlines. */
  method ExportCsv(quiz: Option<seq<Question>>) returns (csv: Option<string>)
    ensures quiz.None? ==> csv.None?
    ensures quiz.Some? ==> csv == Some(CsvContent(quiz.value))
  {
    if quiz.None? {
      return None;
    }
    var qs := quiz.value;
    var rows := [Join(HeaderNames, ",")];
    HeaderLine();
    var k := 0;
    while k < |qs|
      invariant 0 <= k <= |qs|
      invariant rows == CsvLines(qs[..k])
    {
      var row := ExportRow(qs[k]);
      rows := rows + [row];
      CsvLinesSnoc(qs, k);
      k := k + 1;
    }
    assert qs[..k] == qs;
    csv := Some(Join(rows, "\n"));
  }

  // ----- Reading the text back -----

  /** The rest of a quoted field after its opening quote: `""` stands for one
      quote and a lone quote closes the field. The text and what follows the
      closing quote. */
  function ReadQuoted(s: string): (r: Option<(string, string)>)
    ensures r.Some? ==> |r.value.1| < |s|
  {
    if s == [] then None
    else if s[0] == '"' then
      if |s| >= 2 && s[1] == '"' then
        match ReadQuoted(s[2..])
        case None => None
        case Some(p) => Some(("\"" + p.0, p.1))
      else Some(([], s[1..]))
    else
      match ReadQuoted(s[1..])
      case None => None
      case Some(p) => Some(([s[0]] + p.0, p.1))
  }

  /** A bare field: everything up to the next comma or newline. */
  function ReadBare(s: string): (r: (string, string))
    ensures |r.1| <= |s|
  {
    if s == [] || s[0] == ',' || s[0] == '\n' then ([], s)
    else
      var p := ReadBare(s[1..]);
      ([s[0]] + p.0, p.1)
  }

  function ReadField(s: string): (r: Option<(string, string)>)
    ensures r.Some? ==> |r.value.1| <= |s|
  {
    if s != [] && s[0] == '"' then ReadQuoted(s[1..]) else Some(ReadBare(s))
  }

  /** The fields of one record, which ends at a newline or at the end of the
      text; also returns the text after that newline. */
  function ReadRecord(s: string): (r: Option<(seq<string>, string)>)
    ensures r.Some? ==> |r.value.1| <= |s| && (s != [] ==> |r.value.1| < |s|)
    decreases |s|
  {
    match ReadField(s)
    case None => None
    case Some((field, t)) =>
      if t == [] then Some(([field], []))
      else if t[0] == '\n' then Some(([field], t[1..]))
      else if t[0] == ',' then
        match ReadRecord(t[1..])
        case None => None
        case Some((fields, rest)) => Some(([field] + fields, rest))
      else None
  }

  /** RFC 4180 records with LF line breaks, as a spreadsheet reads the file. */
  function ReadRecords(s: string): Option<seq<seq<string>>>
    decreases |s|
  {
    if s == [] then Some([])
    else
      match ReadRecord(s)
      case None => None
      case Some((fields, rest)) =>
        match ReadRecords(rest)
        case None => None
        case Some(records) => Some([fields] + records)
  }

  predicate Ends(t: string) {
    t == [] || t[0] == ',' || t[0] == '\n'
  }

  /** A bare cell must not hold a separator or a quote to read back as itself. */
  predicate Plain(c: Cell) {
    c.Bare? ==> forall i | 0 <= i < |c.text| :: c.text[i] != ',' && c.text[i] != '\n' && c.text[i] != '"'
  }

  /** One step of `ReadQuoted` over a doubled quote. */
  lemma ReadQuotedEscape(rest: string)
    ensures ReadQuoted("\"\"" + rest) == match ReadQuoted(rest)
        case None => None
        case Some(p) => Some(("\"" + p.0, p.1))
  {
    assert ("\"\"" + rest)[2..] == rest;
  }

  /** One step of `ReadQuoted` over any other character. */
  lemma ReadQuotedChar(c: char, rest: string)
    requires c != '"'
    ensures ReadQuoted([c] + rest) == match ReadQuoted(rest)
        case None => None
        case Some(p) => Some(([c] + p.0, p.1))
  {
    assert ([c] + rest)[1..] == rest;
  }

  lemma {:induction false} ReadQuotedDoubled(x: string, t: string)
    requires Ends(t)
    ensures ReadQuoted(DoubleQuotes(x) + "\"" + t) == Some((x, t))
  {
    if x == [] {
      assert DoubleQuotes(x) + "\"" + t == "\"" + t;
      if t != [] {
        assert ("\"" + t)[1..] == t;
      }
    } else {
      var rest := DoubleQuotes(x[1..]) + "\"" + t;
      ReadQuotedDoubled(x[1..], t);
      if x[0] == '"' {
        assert DoubleQuotes(x) + "\"" + t == "\"\"" + rest;
        ReadQuotedEscape(rest);
        assert "\"" + x[1..] == x;
      } else {
        assert DoubleQuotes(x) + "\"" + t == [x[0]] + rest;
        ReadQuotedChar(x[0], rest);
        assert [x[0]] + x[1..] == x;
      }
    }
  }

  lemma {:induction false} ReadBarePlain(x: string, t: string)
    requires forall i | 0 <= i < |x| :: x[i] != ',' && x[i] != '\n'
    requires Ends(t)
    ensures ReadBare(x + t) == (x, t)
  {
    if x == [] {
      assert x + t == t;
    } else {
      assert (x + t)[1..] == x[1..] + t;
      ReadBarePlain(x[1..], t);
      assert [x[0]] + x[1..] == x;
    }
  }

  lemma ReadFieldEncoded(c: Cell, t: string)
    requires Plain(c) && Ends(t)
    ensures ReadField(Encode(c) + t) == Some((c.text, t))
  {
    match c
    case Quoted(x) =>
      var s := Encode(c) + t;
      assert s == "\"" + (DoubleQuotes(x) + "\"" + t);
      assert s[1..] == DoubleQuotes(x) + "\"" + t;
      ReadQuotedDoubled(x, t);
    case Bare(x) =>
      ReadBarePlain(x, t);
      if x != [] {
        assert (x + t)[0] == x[0];
      }
  }

  lemma LineCons(cells: seq<Cell>)
    requires |cells| >= 2
    ensures Line(cells) == Encode(cells[0]) + "," + Line(cells[1..])
  {
    var e := EncodeAll(cells);
    assert EncodeAll(cells[1..]) == e[1..];
  }

  lemma ReadRecordAfterComma(c: Cell, rest: string)
    requires Plain(c)
    ensures ReadRecord(Encode(c) + ("," + rest)) ==
      match ReadRecord(rest)
      case None => None
      case Some((fields, after)) => Some(([c.text] + fields, after))
  {
    ReadFieldEncoded(c, "," + rest);
    assert ("," + rest)[1..] == rest;
  }

  /** A line of plain cells followed by a newline or by nothing reads back as
      the cells' texts. */
  lemma {:induction false} ReadRecordLine(cells: seq<Cell>, t: string)
    requires |cells| >= 1
    requires forall i | 0 <= i < |cells| :: Plain(cells[i])
    requires t == [] || t[0] == '\n'
    ensures ReadRecord(Line(cells) + t) == Some((Values(cells), if t == [] then [] else t[1..]))
  {
    if |cells| == 1 {
      ReadRecordLast(cells, t);
    } else {
      var rest := Line(cells[1..]) + t;
      LineCons(cells);
      assert Line(cells) + t == Encode(cells[0]) + ("," + rest);
      ReadRecordAfterComma(cells[0], rest);
      ReadRecordLine(cells[1..], t);
    }
  }

  lemma ReadRecordLast(cells: seq<Cell>, t: string)
    requires |cells| == 1 && Plain(cells[0])
    requires t == [] || t[0] == '\n'
    ensures ReadRecord(Line(cells) + t) == Some((Values(cells), if t == [] then [] else t[1..]))
  {
    assert Line(cells) == Encode(cells[0]);
    ReadFieldEncoded(cells[0], t);
    assert Values(cells) == [cells[0].text];
  }

  function ValuesOfLines(lines: seq<seq<Cell>>): (r: seq<seq<string>>)
    ensures |r| == |lines|
  {
    if lines == [] then [] else [Values(lines[0])] + ValuesOfLines(lines[1..])
  }

  function LinesText(lines: seq<seq<Cell>>): (r: seq<string>)
    ensures |r| == |lines|
  {
    if lines == [] then [] else [Line(lines[0])] + LinesText(lines[1..])
  }

  /** Lines of at least two plain cells each, joined by newlines, read back as
      the records of their texts. */
  lemma {:induction false} ReadRecordsLines(lines: seq<seq<Cell>>)
    requires forall k | 0 <= k < |lines| :: |lines[k]| >= 2
    requires forall k, i | 0 <= k < |lines| && 0 <= i < |lines[k]| :: Plain(lines[k][i])
    ensures ReadRecords(Join(LinesText(lines), "\n")) == Some(ValuesOfLines(lines))
  {
    if lines != [] {
      var head := lines[0];
      var text := Join(LinesText(lines), "\n");
      assert forall k | 0 <= k < |lines[1..]| :: lines[1..][k] == lines[k + 1];
      ReadRecordsLines(lines[1..]);
      LineNonEmpty(head);
      if |lines| == 1 {
        assert text == Line(head) + [];
        ReadRecordLine(head, []);
      } else {
        var tail := Join(LinesText(lines[1..]), "\n");
        assert text == Line(head) + ("\n" + tail);
        ReadRecordLine(head, "\n" + tail);
        assert ("\n" + tail)[1..] == tail;
      }
    }
  }

  lemma LineNonEmpty(cells: seq<Cell>)
    requires |cells| >= 2
    ensures Line(cells) != []
  {
    assert Line(cells) == EncodeAll(cells)[0] + "," + Join(EncodeAll(cells)[1..], ",");
  }

  /** The six texts a question's row stands for. */
  function CellValues(q: Question): seq<string> {
    Values(RowCells(q))
  }

  /** They are the question, the first four options with empty texts for the
      missing ones, and the answer letter. */
  lemma CellValuesSpec(q: Question)
    ensures |CellValues(q)| == 6
    ensures CellValues(q)[0] == q.question
    ensures forall j | 0 <= j < 4 :: CellValues(q)[j + 1] == if j < |q.options| then q.options[j] else ""
    ensures CellValues(q)[5] == CorrectLetter(q)
  {
    var cells := RowCells(q);
    ValuesIndex(cells);
  }

  lemma {:induction false} ValuesIndex(cells: seq<Cell>)
    ensures forall i | 0 <= i < |cells| :: Values(cells)[i] == cells[i].text
  {
    if cells != [] {
      ValuesIndex(cells[1..]);
    }
  }

  function RowsCells(qs: seq<Question>): (r: seq<seq<Cell>>)
    ensures |r| == |qs|
    ensures forall k {:trigger r[k]} | 0 <= k < |qs| :: r[k] == RowCells(qs[k])
  {
    if qs == [] then [] else [RowCells(qs[0])] + RowsCells(qs[1..])
  }

  lemma {:induction false} RowsText(qs: seq<Question>)
    ensures LinesText(RowsCells(qs)) == RowLines(qs)
    ensures forall k | 0 <= k < |qs| :: ValuesOfLines(RowsCells(qs))[k] == CellValues(qs[k])
  {
    if qs != [] {
      RowsText(qs[1..]);
      assert RowsCells(qs)[1..] == RowsCells(qs[1..]);
    }
  }

  function ExportLines(qs: seq<Question>): seq<seq<Cell>> {
    [HeaderCells] + RowsCells(qs)
  }

  lemma ExportLinesText(qs: seq<Question>)
    ensures CsvContent(qs) == Join(LinesText(ExportLines(qs)), "\n")
  {
    var lines := ExportLines(qs);
    RowsText(qs);
    assert lines[1..] == RowsCells(qs);
  }

  lemma ExportLinesPlain(qs: seq<Question>)
    ensures forall k | 0 <= k < |ExportLines(qs)| :: |ExportLines(qs)[k]| >= 2
    ensures forall k, i | 0 <= k < |ExportLines(qs)| && 0 <= i < |ExportLines(qs)[k]| ::
      Plain(ExportLines(qs)[k][i])
  {
    var lines := ExportLines(qs);
    HeaderPlain();
    forall k | 0 <= k < |lines|
      ensures |lines[k]| >= 2 && forall i | 0 <= i < |lines[k]| :: Plain(lines[k][i])
    {
      if k > 0 {
        RowCellsPlain(qs[k - 1]);
      }
    }
  }

  lemma HeaderPlain()
    ensures forall i | 0 <= i < |HeaderCells| :: Plain(HeaderCells[i])
  {
  }

  lemma RowCellsPlain(q: Question)
    ensures forall i | 0 <= i < |RowCells(q)| :: Plain(RowCells(q)[i])
  {
  }

  lemma ExportLinesValues(qs: seq<Question>)
    ensures var v := ValuesOfLines(ExportLines(qs));
      && |v| == |qs| + 1 && v[0] == HeaderNames
      && forall k | 0 <= k < |qs| :: v[k + 1] == CellValues(qs[k])
  {
    var lines := ExportLines(qs);
    RowsText(qs);
    HeaderValues();
    assert lines[1..] == RowsCells(qs);
  }

  /** The exported file reads back as the header record followed, question by
      question and in order, by the six texts of each question's row. */
  lemma ExportReadsBack(qs: seq<Question>)
    ensures var r := ReadRecords(CsvContent(qs));
      && r.Some? && |r.value| == |qs| + 1 && r.value[0] == HeaderNames
      && forall k | 0 <= k < |qs| :: r.value[k + 1] == CellValues(qs[k])
  {
    ExportLinesText(qs);
    ExportLinesPlain(qs);
    ReadRecordsLines(ExportLines(qs));
    ExportLinesValues(qs);
  }

  /** Inside the quotes, quote characters come only in adjacent pairs. */
  predicate PairedQuotes(s: string)
    decreases |s|
  {
    if s == [] then true
    else if s[0] != '"' then PairedQuotes(s[1..])
    else |s| >= 2 && s[1] == '"' && PairedQuotes(s[2..])
  }

  lemma {:induction false} QuotedCellShape(s: string)
    ensures var r := Quote(s); r[1..|r| - 1] == DoubleQuotes(s) && PairedQuotes(DoubleQuotes(s))
  {
    var r := Quote(s);
    assert r[1..|r| - 1] == DoubleQuotes(s);
    if s != [] {
      QuotedCellShape(s[1..]);
      var d := DoubleQuotes(s);
      if s[0] == '"' {
        assert d[2..] == DoubleQuotes(s[1..]);
      } else {
        assert d[1..] == DoubleQuotes(s[1..]);
      }
    }
  }

  /** The correct column: the letter of the first matching option when there is
      one, otherwise the raw answer. */
  lemma CorrectLetterSpec(q: Question)
    ensures (exists j | 0 <= j < |q.options| :: SameAnswer(q.options[j], q.answer)) ==>
      var i := MatchIndex(q.options, q.answer);
      0 <= i && CorrectLetter(q) == FromCharCode(65 + i)
    ensures (forall j | 0 <= j < |q.options| :: !SameAnswer(q.options[j], q.answer)) ==>
      CorrectLetter(q) == q.answer
  {
    var i := MatchIndex(q.options, q.answer);
    if exists j | 0 <= j < |q.options| :: SameAnswer(q.options[j], q.answer) {
      var j :| 0 <= j < |q.options| && SameAnswer(q.options[j], q.answer);
      assert i >= 0;
    }
  }

  /** The first four options are lettered A to D. */
  lemma FirstFourLetters()
    ensures FromCharCode(65) == "A" && FromCharCode(66) == "B"
    ensures FromCharCode(67) == "C" && FromCharCode(68) == "D"
  {
  }
}
