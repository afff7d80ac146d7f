/**
 * The spreadsheet importer of the administration screen: the rows of the first
 * sheet are scanned for a header row naming a topic ("tópico") column and a
 * subtopic ("subtópico") column, and every later row that names both a subject
 * and a topic adds that topic, with its estimated minutes, to the subject of
 * that name. The result is shown as a preview and sent as a new course.
 */
module CourseImporter {
  import opened Wrappers
  import opened Decimal

  /** A spreadsheet cell as the sheet reader hands it over; a missing cell is Blank. */
  datatype Cell = Blank | Text(text: string) | Number(value: int) | Logical(flag: bool)

  /** A topic of the preview: its name cell and its estimated study time. */
  datatype Topic = Topic(name: Cell, estimatedMinutes: int)

  /** A subject of the preview, with its topics in row order. */
  datatype Subject = Subject(name: Cell, color: string, weight: int, topics: seq<Topic>)

  /** What the importer shows before import, and sends on import. */
  datatype Preview = Preview(totalSubjects: nat, totalTopics: nat, subjects: seq<Subject>)

  /** The columns found so far, as the scan of the rows carries them from row to row. */
  datatype Columns = Columns(topicIndex: int, subtopicIndex: int, timeIndex: int, headerFound: bool)

  /** One contributing data row: the dictionary key of its subject, the subject cell and the topic it adds. */
  datatype Entry = Entry(key: string, subject: Cell, topic: Topic)

  /** The subject dictionary: subjects by key, and the keys in the order of their first insertion. */
  datatype Groups = Groups(byKey: map<string, Subject>, order: seq<string>)

  /** Reading the sheet failed; the component then shows its read-error message. */
  datatype ReadError = UnreadableSheet

  /** Why an import is refused before any request is made. */
  datatype ImportError = MissingTitle | NoPreview

  /** The body of the course-creation request. */
  datatype CourseData = CourseData(title: string, description: string, subjects: seq<Subject>)

  const COLOR := "#4F46E5"
  const DESCRIPTION := "Importado via Excel"
  const NO_COLUMNS := Columns(-1, -1, -1, false)

  /**
   * The property names every plain object inherits: looking one of them up in
   * the subject dictionary finds an inherited value that has no topic list.
   */
  const INHERITED: set<string> := {
    "constructor", "__proto__", "hasOwnProperty", "isPrototypeOf", "propertyIsEnumerable",
    "toString", "toLocaleString", "valueOf", "__defineGetter__", "__defineSetter__",
    "__lookupGetter__", "__lookupSetter__"}

  function ErrorMessage(e: ImportError): string
  {
    match e
    case MissingTitle => "Por favor, digite um nome para o curso."
    case NoPreview => "Nenhum arquivo processado."
  }

  /** The white space and line terminators that string trimming removes. */
  predicate IsSpace(c: char)
  {
    c == ' ' || c == '\t' || c == '\n' || c == '\r' || c == '\U{000B}' || c == '\U{000C}' ||
    c == '\U{00A0}' || c == '\U{1680}' || ('\U{2000}' <= c <= '\U{200A}') || c == '\U{2028}' ||
    c == '\U{2029}' || c == '\U{202F}' || c == '\U{205F}' || c == '\U{3000}' || c == '\U{FEFF}'
  }

  function TrimStart(s: string): (r: string)
    ensures |r| <= |s|
    ensures r == [] || !IsSpace(r[0])
  {
    if s != [] && IsSpace(s[0]) then TrimStart(s[1..]) else s
  }

  function TrimEnd(s: string): (r: string)
    ensures |r| <= |s|
    ensures r == [] || !IsSpace(r[|r| - 1])
  {
    if s != [] && IsSpace(s[|s| - 1]) then TrimEnd(s[..|s| - 1]) else s
  }

  function Trim(s: string): string
  {
    TrimEnd(TrimStart(s))
  }

  /** Lower case for the Basic Latin and Latin-1 capitals. */
  function LowerChar(c: char): char
  {
    if 'A' <= c <= 'Z' || ('\U{00C0}' <= c <= '\U{00DE}' && c != '\U{00D7}') then ((c as int) + 32) as char else c
  }

  function Lower(s: string): (r: string)
    ensures |r| == |s|
  {
    seq(|s|, i requires 0 <= i < |s| => LowerChar(s[i]))
  }

  /** `s.startsWith(p)`. */
  predicate StartsWith(s: string, p: string)
  {
    |p| <= |s| && s[..|p|] == p
  }

  /** `s.includes(sub)`: `sub` starts at the first character of `s` or somewhere in the rest. */
  predicate Contains(s: string, sub: string)
    decreases |s|
  {
    StartsWith(s, sub) || (s != [] && Contains(s[1..], sub))
  }

  /** The header tests applied to a trimmed, lower-cased text cell. */
  predicate TopicLike(v: string)
  {
    Contains(v, "tópico") || Contains(v, "topico")
  }

  predicate SubtopicLike(v: string)
  {
    Contains(v, "subtópico") || Contains(v, "subtopico")
  }

  predicate TimeLike(v: string)
  {
    v == "te" || v == "tempo" || v == "horas"
  }

  /** The header scan of one cell at column `index`: only text cells are tested. */
  function MatchCell(c: Columns, cell: Cell, index: int): Columns
  {
    if cell.Text? then
      var v := Lower(Trim(cell.text));
      c.(topicIndex := if TopicLike(v) then index else c.topicIndex,
         subtopicIndex := if SubtopicLike(v) then index else c.subtopicIndex,
         timeIndex := if TimeLike(v) then index else c.timeIndex)
    else c
  }

  /** The header scan of the cells of a row, from the first column to the last. */
  function ScanCells(c: Columns, row: seq<Cell>): Columns
  {
    if row == [] then c
    else MatchCell(ScanCells(c, row[..|row| - 1]), row[|row| - 1], |row| - 1)
  }

  /** A row scanned for headers; the header counts as found once both a topic and a subtopic column are known. */
  function ScanRow(c: Columns, row: seq<Cell>): Columns
  {
    var s := ScanCells(c, row);
    s.(headerFound := s.topicIndex != -1 && s.subtopicIndex != -1)
  }

  /** The columns after the rows `rows`: rows are scanned for headers until the header is found. */
  function ColumnsAfter(rows: seq<seq<Cell>>): Columns
  {
    if rows == [] then NO_COLUMNS
    else
      var c := ColumnsAfter(rows[..|rows| - 1]);
      if c.headerFound then c else ScanRow(c, rows[|rows| - 1])
  }

  /** The cell at column `j`, Blank beyond the row or at a negative column. */
  function CellAt(row: seq<Cell>, j: int): Cell
  {
    if 0 <= j < |row| then row[j] else Blank
  }

  /** JavaScript truthiness of a cell value. */
  predicate Truthy(c: Cell)
  {
    match c
    case Blank => false
    case Text(s) => s != ""
    case Number(n) => n != 0
    case Logical(b) => b
  }

  /** The property name a cell value becomes when it indexes the subject dictionary. */
  function Key(c: Cell): string
  {
    match c
    case Blank => "undefined"
    case Text(s) => s
    case Number(n) => IntToString(n)
    case Logical(b) => if b then "true" else "false"
  }

  /** The longest run of digits at the start of `s`. */
  function DigitPrefix(s: string): (r: string)
    ensures AllDigits(r) && |r| <= |s|
  {
    if s != [] && IsDigit(s[0]) then [s[0]] + DigitPrefix(s[1..]) else []
  }

  /** The number a text starts with after leading white space and an optional sign; None when there is none. */
  function ParseLeadingInt(s: string): Option<int>
  {
    var t := TrimStart(s);
    var negative := t != [] && t[0] == '-';
    var body := if t != [] && (t[0] == '-' || t[0] == '+') then t[1..] else t;
    var digits := DigitPrefix(body);
    if digits == [] then None
    else
      var n: int := ParseDigits(digits);
      if negative then Some(-n) else Some(n)
  }

  /** `parseFloat` of a cell value, on whole numbers; None stands for NaN. */
  function ParseHours(c: Cell): Option<int>
  {
    match c
    case Number(n) => Some(n)
    case Text(s) => ParseLeadingInt(s)
    case _ => None
  }

  /** The estimated minutes of a topic: its hours times 60, one hour when the hours are 0 or not a number. */
  function Minutes(hours: Cell): int
  {
    var h := ParseHours(hours);
    (if h.Some? && h.value != 0 then h.value else 1) * 60
  }

  /** A data row adds a topic only when both its subject cell and its topic cell are truthy. */
  predicate Contributes(c: Columns, row: seq<Cell>)
  {
    Truthy(CellAt(row, c.topicIndex)) && Truthy(CellAt(row, c.subtopicIndex))
  }

  /** The hours cell of a data row: one hour when no time column was found. */
  function HoursCell(c: Columns, row: seq<Cell>): Cell
  {
    if c.timeIndex != -1 then CellAt(row, c.timeIndex) else Number(1)
  }

  function EntryOf(c: Columns, row: seq<Cell>): Entry
  {
    var subject := CellAt(row, c.topicIndex);
    Entry(Key(subject), subject, Topic(CellAt(row, c.subtopicIndex), Minutes(HoursCell(c, row))))
  }

  /** The entries the rows contribute, in row order: data rows after the header row, that contribute. */
  function Entries(rows: seq<seq<Cell>>): seq<Entry>
  {
    if rows == [] then []
    else
      var c := ColumnsAfter(rows[..|rows| - 1]);
      var row := rows[|rows| - 1];
      Entries(rows[..|rows| - 1]) + if c.headerFound && Contributes(c, row) then [EntryOf(c, row)] else []
  }

  /** An entry added to the dictionary: a new subject on the first appearance of its key, then the topic appended. */
  function AddEntry(g: Groups, e: Entry): Groups
  {
    var s := if e.key in g.byKey then g.byKey[e.key] else Subject(e.subject, COLOR, 1, []);
    Groups(g.byKey[e.key := s.(topics := s.topics + [e.topic])],
           if e.key in g.byKey then g.order else g.order + [e.key])
  }

  /** The dictionary built from the entries, one at a time. */
  function Group(es: seq<Entry>): (g: Groups)
    ensures forall k :: k in g.order <==> k in g.byKey
  {
    if es == [] then Groups(map[], []) else AddEntry(Group(es[..|es| - 1]), es[|es| - 1])
  }

  /** The subjects of the dictionary for the keys `keys`, in that order. */
  function ValuesOf(byKey: map<string, Subject>, keys: seq<string>): (r: seq<Subject>)
    requires forall k :: k in keys ==> k in byKey
    ensures |r| == |keys|
  {
    if keys == [] then [] else ValuesOf(byKey, keys[..|keys| - 1]) + [byKey[keys[|keys| - 1]]]
  }

  /** The number of topics over a list of subjects. */
  function TopicTotal(subjects: seq<Subject>): nat
  {
    if subjects == [] then 0 else TopicTotal(subjects[..|subjects| - 1]) + |subjects[|subjects| - 1].topics|
  }

  function PreviewOf(es: seq<Entry>): Preview
  {
    var g := Group(es);
    var subjects := ValuesOf(g.byKey, g.order);
    Preview(|subjects|, TopicTotal(subjects), subjects)
  }

  /** Some entry's subject key is an inherited property name. */
  predicate HitsInherited(es: seq<Entry>)
  {
    exists i :: 0 <= i < |es| && es[i].key in INHERITED
  }

  /** The outcome of reading a sheet: the preview, or the read error when a subject key is inherited. */
  function ReadSheet(rows: seq<seq<Cell>>): Result<Preview, ReadError>
  {
    var es := Entries(rows);
    if HitsInherited(es) then Failure(UnreadableSheet) else Success(PreviewOf(es))
  }

  /** The checks before the import request: a title is required, then a preview. */
  function PrepareImport(courseTitle: string, preview: Option<Preview>): (r: Result<CourseData, ImportError>)
    ensures r.Success? <==> courseTitle != "" && preview.Some?
    ensures courseTitle == "" ==> r == Failure(MissingTitle)
    ensures courseTitle != "" && preview.None? ==> r == Failure(NoPreview)
    ensures r.Success? ==> r.value == CourseData(courseTitle, DESCRIPTION, preview.value.subjects)
  {
    if courseTitle == "" then Failure(MissingTitle)
    else if preview.None? then Failure(NoPreview)
    else Success(CourseData(courseTitle, DESCRIPTION, preview.value.subjects))
  }

  lemma EntriesStep(rows: seq<seq<Cell>>, n: nat)
    requires n < |rows|
    ensures var c := ColumnsAfter(rows[..n]);
            Entries(rows[..n + 1]) ==
            Entries(rows[..n]) + if c.headerFound && Contributes(c, rows[n]) then [EntryOf(c, rows[n])] else []
    ensures var c := ColumnsAfter(rows[..n]);
            ColumnsAfter(rows[..n + 1]) == if c.headerFound then c else ScanRow(c, rows[n])
  {
    assert rows[..n + 1][..n] == rows[..n];
  }

  /** The header scan of one row, cell by cell, from the column indices found so far. */
  method ScanHeaderRow(row: seq<Cell>, topicIndex: int, subtopicIndex: int, timeIndex: int)
    returns (topic: int, subtopic: int, time: int)
    ensures Columns(topic, subtopic, time, false) == ScanCells(Columns(topicIndex, subtopicIndex, timeIndex, false), row)
  {
    topic, subtopic, time := topicIndex, subtopicIndex, timeIndex;
    for index := 0 to |row|
      invariant Columns(topic, subtopic, time, false)
                == ScanCells(Columns(topicIndex, subtopicIndex, timeIndex, false), row[..index])
    {
      assert row[..index + 1][..index] == row[..index];
      var cell := row[index];
      if cell.Text? {
        var value := Lower(Trim(cell.text));
        if TopicLike(value) { topic := index; }
        if SubtopicLike(value) { subtopic := index; }
        if TimeLike(value) { time := index; }
      }
    }
    assert row[..|row|] == row;
  }

  /** A topic added to the subject of key `key`, which is created on first appearance. */
  method AddTopic(subjectsMap: map<string, Subject>, keys: seq<string>, e: Entry)
    returns (newMap: map<string, Subject>, newKeys: seq<string>)
    ensures Groups(newMap, newKeys) == AddEntry(Groups(subjectsMap, keys), e)
  {
    newMap, newKeys := subjectsMap, keys;
    if e.key !in newMap {
      newMap := newMap[e.key := Subject(e.subject, COLOR, 1, [])];
      newKeys := newKeys + [e.key];
    }
    var subject := newMap[e.key];
    newMap := newMap[e.key := subject.(topics := subject.topics + [e.topic])];
  }

  /** The subjects of the dictionary in key order, and their number of topics. */
  method Summarize(subjectsMap: map<string, Subject>, keys: seq<string>) returns (preview: Preview)
    requires forall k :: k in keys ==> k in subjectsMap
    ensures preview.subjects == ValuesOf(subjectsMap, keys)
    ensures preview.totalSubjects == |keys| && preview.totalTopics == TopicTotal(preview.subjects)
  {
    var subjects: seq<Subject> := [];
    for i := 0 to |keys|
      invariant subjects == ValuesOf(subjectsMap, keys[..i])
    {
      assert keys[..i + 1][..i] == keys[..i];
      subjects := subjects + [subjectsMap[keys[i]]];
    }
    assert keys[..|keys|] == keys;
    var totalTopics := 0;
    for i := 0 to |subjects|
      invariant totalTopics == TopicTotal(subjects[..i])
    {
      assert subjects[..i + 1][..i] == subjects[..i];
      totalTopics := totalTopics + |subjects[i].topics|;
    }
    assert subjects[..|subjects|] == subjects;
    preview := Preview(|subjects|, totalTopics, subjects);
  }

  /** Reads the rows of the sheet, as the component's file handler does once the sheet is decoded. */
  method ParseSheet(data: seq<seq<Cell>>) returns (r: Result<Preview, ReadError>)
    ensures r == ReadSheet(data)
  {
    var topicIndex := -1;
    var subtopicIndex := -1;
    var timeIndex := -1;
    var headerFound := false;
    var subjectsMap: map<string, Subject> := map[];
    var keys: seq<string> := [];
    for rowIndex := 0 to |data|
      invariant Columns(topicIndex, subtopicIndex, timeIndex, headerFound) == ColumnsAfter(data[..rowIndex])
      invariant Groups(subjectsMap, keys) == Group(Entries(data[..rowIndex]))
      invariant !HitsInherited(Entries(data[..rowIndex]))
    {
      ghost var prev := Entries(data[..rowIndex]);
      EntriesStep(data, rowIndex);
      var row := data[rowIndex];
      if !headerFound {
        topicIndex, subtopicIndex, timeIndex := ScanHeaderRow(row, topicIndex, subtopicIndex, timeIndex);
        if topicIndex != -1 && subtopicIndex != -1 {
          headerFound := true;
        }
        // the header row itself adds nothing
        assert Entries(data[..rowIndex + 1]) == prev;
      } else {
        var subjectName := CellAt(row, topicIndex);
        var topicName := CellAt(row, subtopicIndex);
        var hours := if timeIndex != -1 then CellAt(row, timeIndex) else Number(1);
        if Truthy(subjectName) && Truthy(topicName) {
          var e := Entry(Key(subjectName), subjectName, Topic(topicName, Minutes(hours)));
          assert Entries(data[..rowIndex + 1]) == prev + [e];
          if e.key in INHERITED {
            // the lookup finds an inherited value, whose missing topic list makes the push throw
            assert (prev + [e])[|prev|] == e;
            InheritedKeyFails(data, rowIndex + 1);
            return Failure(UnreadableSheet);
          }
          GroupAppend(prev, e);
          assert !HitsInherited(prev + [e]) by {
            forall i | 0 <= i < |prev| + 1
              ensures (prev + [e])[i].key !in INHERITED
            {
              if i < |prev| {
                assert (prev + [e])[i] == prev[i];
              }
            }
          }
          subjectsMap, keys := AddTopic(subjectsMap, keys, e);
          assert Groups(subjectsMap, keys) == Group(Entries(data[..rowIndex + 1]));
        } else {
          assert Entries(data[..rowIndex + 1]) == prev;
        }
      }
    }
    assert data[..|data|] == data;
    var preview := Summarize(subjectsMap, keys);
    r := Success(preview);
  }

  /** The dictionary of one more entry. */
  lemma GroupAppend(es: seq<Entry>, e: Entry)
    ensures Group(es + [e]) == AddEntry(Group(es), e)
  {
    assert (es + [e])[..|es|] == es;
  }

  /** An inherited subject key among the entries of some prefix of the rows makes the whole read fail. */
  lemma InheritedKeyFails(rows: seq<seq<Cell>>, n: nat)
    requires n <= |rows| && HitsInherited(Entries(rows[..n]))
    ensures HitsInherited(Entries(rows))
  {
    var es := Entries(rows[..n]);
    var i :| 0 <= i < |es| && es[i].key in INHERITED;
    EntriesPrefix(rows, n);
    assert Entries(rows)[i] == es[i];
  }

  /** The entries of a prefix of the rows are a prefix of the entries of all rows. */
  lemma {:induction false} EntriesPrefix(rows: seq<seq<Cell>>, n: nat)
    requires n <= |rows|
    ensures |Entries(rows[..n])| <= |Entries(rows)|
    ensures Entries(rows[..n]) == Entries(rows)[..|Entries(rows[..n])|]
    decreases |rows| - n
  {
    if n < |rows| {
      EntriesPrefix(rows, n + 1);
      EntriesStep(rows, n);
      assert rows[..|rows|] == rows;
    } else {
      assert rows[..n] == rows;
    }
  }
}
