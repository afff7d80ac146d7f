/**
 * What the spreadsheet importer promises, stated about the reading function
 * that the row parser is proved to compute: how the header row is found and
 * kept, which columns it picks, how topics are grouped into subjects, the
 * minutes of a topic, and the totals of the preview.
 */
module ImporterProperties {
  import opened Wrappers
  import opened Decimal
  import opened CourseImporter
  import opened Sequences

  /** The three columns the header scan looks for. */
  datatype Kind = TopicColumn | SubtopicColumn | TimeColumn

  /** The header test of a column kind, applied to a cell. */
  predicate Names(kind: Kind, cell: Cell)
  {
    cell.Text? &&
    var v := Lower(Trim(cell.text));
    match kind
    case TopicColumn => TopicLike(v)
    case SubtopicColumn => SubtopicLike(v)
    case TimeColumn => TimeLike(v)
  }

  function IndexOf(c: Columns, kind: Kind): int
  {
    match kind
    case TopicColumn => c.topicIndex
    case SubtopicColumn => c.subtopicIndex
    case TimeColumn => c.timeIndex
  }

  /** The topics of the entries with subject key `k`, in row order. */
  function TopicsWithKey(es: seq<Entry>, k: string): seq<Topic>
  {
    if es == [] then []
    else TopicsWithKey(es[..|es| - 1], k) + if es[|es| - 1].key == k then [es[|es| - 1].topic] else []
  }

  /** The subject keys the entries name. */
  function KeySet(es: seq<Entry>): set<string>
  {
    set i | 0 <= i < |es| :: es[i].key
  }

  /** The number of topics of the entries over the keys `keys`. */
  function SumCounts(es: seq<Entry>, keys: seq<string>): nat
  {
    if keys == [] then 0 else SumCounts(es, keys[..|keys| - 1]) + |TopicsWithKey(es, keys[|keys| - 1])|
  }

  // ---------------------------------------------------------------- header row

  /** Once the header is found, the columns no longer change, whatever rows follow. */
  lemma {:induction false} ColumnsPersist(rows: seq<seq<Cell>>, m: nat, n: nat)
    requires m <= n <= |rows| && ColumnsAfter(rows[..m]).headerFound
    ensures ColumnsAfter(rows[..n]) == ColumnsAfter(rows[..m])
    decreases n - m
  {
    if m < n {
      ColumnsPersist(rows, m, n - 1);
      EntriesStep(rows, n - 1);
    }
  }

  /**
   * No row contributes a topic before the header is found, and neither does
   * the row that completes the header.
   */
  lemma {:induction false} NothingBeforeHeader(rows: seq<seq<Cell>>, n: nat)
    requires n < |rows| && !ColumnsAfter(rows[..n]).headerFound
    ensures Entries(rows[..n + 1]) == []
    decreases n
  {
    EntriesStep(rows, n);
    if n > 0 {
      if ColumnsAfter(rows[..n - 1]).headerFound {
        ColumnsPersist(rows, n - 1, n);
      }
      NothingBeforeHeader(rows, n - 1);
    }
  }

  /** A found header has a real topic column and a real subtopic column; the indices never drop below -1. */
  lemma {:induction false} HeaderHasBothColumns(rows: seq<seq<Cell>>)
    ensures var c := ColumnsAfter(rows);
            -1 <= c.topicIndex && -1 <= c.subtopicIndex && -1 <= c.timeIndex
    ensures ColumnsAfter(rows).headerFound ==>
              0 <= ColumnsAfter(rows).topicIndex && 0 <= ColumnsAfter(rows).subtopicIndex
    decreases |rows|
  {
    if rows != [] {
      var c := ColumnsAfter(rows[..|rows| - 1]);
      HeaderHasBothColumns(rows[..|rows| - 1]);
      if !c.headerFound {
        var row := rows[|rows| - 1];
        ScanBounds(c, row, TopicColumn);
        ScanBounds(c, row, SubtopicColumn);
        ScanBounds(c, row, TimeColumn);
      }
    }
  }

  /** A scan leaves a column index as it was or sets it to a column of the row. */
  lemma {:induction false} ScanBounds(c: Columns, row: seq<Cell>, kind: Kind)
    ensures IndexOf(ScanCells(c, row), kind) == IndexOf(c, kind) ||
            0 <= IndexOf(ScanCells(c, row), kind) < |row|
    decreases |row|
  {
    if row != [] {
      ScanBounds(c, row[..|row| - 1], kind);
    }
  }

  /** A scan keeps the index a column kind had when no cell of the row names that kind. */
  lemma {:induction false} NoMatchKeeps(c: Columns, row: seq<Cell>, kind: Kind)
    requires forall j :: 0 <= j < |row| ==> !Names(kind, row[j])
    ensures IndexOf(ScanCells(c, row), kind) == IndexOf(c, kind)
    decreases |row|
  {
    if row != [] {
      var n := |row| - 1;
      var init := row[..n];
      assert forall j :: 0 <= j < |init| ==> init[j] == row[j];
      NoMatchKeeps(c, init, kind);
      MatchCellIndex(ScanCells(c, init), row[n], n, kind);
    }
  }

  /** The last cell of a row that names a column kind sets that column. */
  lemma {:induction false} LastMatchWins(c: Columns, row: seq<Cell>, kind: Kind, j: int)
    requires 0 <= j < |row| && Names(kind, row[j])
    requires forall j' :: j < j' < |row| ==> !Names(kind, row[j'])
    ensures IndexOf(ScanCells(c, row), kind) == j
    decreases |row|
  {
    var n := |row| - 1;
    var init := row[..n];
    MatchCellIndex(ScanCells(c, init), row[n], n, kind);
    if j < n {
      assert init[j] == row[j];
      assert forall j' :: j < j' < |init| ==> init[j'] == row[j'];
      LastMatchWins(c, init, kind, j);
    }
  }

  /** The scan of one cell sets the column of each kind it names to its own column. */
  lemma MatchCellIndex(c: Columns, cell: Cell, index: int, kind: Kind)
    ensures IndexOf(MatchCell(c, cell, index), kind) == if Names(kind, cell) then index else IndexOf(c, kind)
  {
  }

  /** `sub` occurs in `s` at position `i`. */
  predicate OccursAt(s: string, sub: string, i: int)
  {
    0 <= i && i + |sub| <= |s| && s[i..i + |sub|] == sub
  }

  /** The substring test holds exactly when the text occurs at some position. */
  lemma {:induction false} ContainsOccurs(s: string, sub: string)
    ensures Contains(s, sub) <==> exists i :: OccursAt(s, sub, i)
    decreases |s|
  {
    if StartsWith(s, sub) {
      assert OccursAt(s, sub, 0);
    }
    if s != [] {
      ContainsOccurs(s[1..], sub);
      if exists i :: OccursAt(s, sub, i) {
        var i :| OccursAt(s, sub, i);
        if 0 < i {
          assert s[1..][i - 1..i - 1 + |sub|] == s[i..i + |sub|];
          assert OccursAt(s[1..], sub, i - 1);
        }
      }
      if Contains(s[1..], sub) && !StartsWith(s, sub) {
        var i :| OccursAt(s[1..], sub, i);
        assert s[1..][i..i + |sub|] == s[i + 1..i + 1 + |sub|];
        assert OccursAt(s, sub, i + 1);
      }
    } else {
      if exists i :: OccursAt(s, sub, i) {
        var i :| OccursAt(s, sub, i);
        assert sub == [];
      }
    }
  }

  /** Every cell that names a subtopic column also names a topic column. */
  lemma SubtopicIsTopic(v: string)
    requires SubtopicLike(v)
    ensures TopicLike(v)
  {
    ContainsOccurs(v, "subtópico");
    ContainsOccurs(v, "subtopico");
    ContainsOccurs(v, "tópico");
    ContainsOccurs(v, "topico");
    if Contains(v, "subtópico") {
      var i :| OccursAt(v, "subtópico", i);
      assert v[i + 3..i + 9] == v[i..i + 9][3..];
      assert OccursAt(v, "tópico", i + 3);
    } else {
      var i :| OccursAt(v, "subtopico", i);
      assert v[i + 3..i + 9] == v[i..i + 9][3..];
      assert OccursAt(v, "topico", i + 3);
    }
  }

  /** Hence a row with a subtopic header never leaves the topic column before the subtopic column. */
  lemma TopicNotBeforeSubtopic(c: Columns, row: seq<Cell>, j: int)
    requires 0 <= j < |row| && Names(SubtopicColumn, row[j])
    ensures ScanCells(c, row).topicIndex >= ScanCells(c, row).subtopicIndex
  {
    var last :| j <= last < |row| && Names(SubtopicColumn, row[last]) &&
                forall j' :: last < j' < |row| ==> !Names(SubtopicColumn, row[j']) by {
      LastSubtopic(row, j);
    }
    assert Names(SubtopicColumn, row[last]);
    assert row[last].Text? && SubtopicLike(Lower(Trim(row[last].text)));
    SubtopicIsTopic(Lower(Trim(row[last].text)));
    LastMatchWins(c, row, SubtopicColumn, last);
    ScanAtLeast(c, row, last);
  }

  /** A row whose cell j names a subtopic column has a last such cell, at j or later. */
  lemma {:induction false} LastSubtopic(row: seq<Cell>, j: int)
    requires 0 <= j < |row| && Names(SubtopicColumn, row[j])
    ensures exists last :: j <= last < |row| && Names(SubtopicColumn, row[last]) &&
              forall j' :: last < j' < |row| ==> !Names(SubtopicColumn, row[j'])
    decreases |row| - j
  {
    if exists j' :: j < j' < |row| && Names(SubtopicColumn, row[j']) {
      var j' :| j < j' < |row| && Names(SubtopicColumn, row[j']);
      LastSubtopic(row, j');
    }
  }

  /** After a cell at column j names a topic column, the topic index of the scan is j or a later column. */
  lemma {:induction false} ScanAtLeast(c: Columns, row: seq<Cell>, j: int)
    requires 0 <= j < |row| && Names(TopicColumn, row[j])
    ensures ScanCells(c, row).topicIndex >= j
    decreases |row|
  {
    if j < |row| - 1 {
      var init := row[..|row| - 1];
      assert init[j] == row[j];
      ScanAtLeast(c, init, j);
      ScanBounds(c, init, TopicColumn);
    }
  }

  /** The header scan as the importer writes it reads a header row Tópico, Subtópico, TE with the subtopic column for both topic and subtopic. */
  lemma HeaderReadsSubtopicTwice()
    ensures ScanRow(NO_COLUMNS, [Text("Tópico"), Text("Subtópico"), Text("TE")]) == Columns(1, 1, 2, true)
  {
    var row := [Text("Tópico"), Text("Subtópico"), Text("TE")];
    assert row[..2][..1] == [Text("Tópico")] && row[..2][..1][..0] == [];
    assert row[..2] == [Text("Tópico"), Text("Subtópico")];
    TopicCell();
    assert ScanCells(NO_COLUMNS, row[..2][..1]) == Columns(0, -1, -1, false);
    SubtopicCell();
    assert ScanCells(NO_COLUMNS, row[..2]) == Columns(1, 1, -1, false);
    TimeCell();
  }

  /** A header cell "Tópico" names a topic column and nothing else. */
  lemma TopicCell()
    ensures Lower(Trim("Tópico")) == "tópico"
    ensures TopicLike("tópico") && !SubtopicLike("tópico") && !TimeLike("tópico")
  {
    assert Trim("Tópico") == "Tópico";
    assert Lower("Tópico") == "tópico";
    assert StartsWith("tópico", "tópico");
  }

  /** A header cell "Subtópico" names both a topic and a subtopic column. */
  lemma SubtopicCell()
    ensures Lower(Trim("Subtópico")) == "subtópico"
    ensures TopicLike("subtópico") && SubtopicLike("subtópico") && !TimeLike("subtópico")
  {
    assert Trim("Subtópico") == "Subtópico";
    assert Lower("Subtópico") == "subtópico";
    assert StartsWith("subtópico", "subtópico");
    SubtopicIsTopic("subtópico");
  }

  /** A header cell "TE" names a time column and nothing else. */
  lemma TimeCell()
    ensures Lower(Trim("TE")) == "te"
    ensures !TopicLike("te") && !SubtopicLike("te") && TimeLike("te")
  {
    assert Trim("TE") == "TE";
    assert Lower("TE") == "te";
  }

  /**
   * So a sheet whose header row is Tópico, Subtópico, TE, with the topic
   * column before the subtopic column, files every topic under a subject
   * named after the topic itself, whatever its subject cell holds.
   */
  lemma TopicSubtopicSheetAsWritten(subject: Cell, topic: string, hours: int)
    requires topic != "" && topic !in INHERITED
    ensures ReadSheet([[Text("Tópico"), Text("Subtópico"), Text("TE")], [subject, Text(topic), Number(hours)]])
            == Success(Preview(1, 1, [Subject(Text(topic), COLOR, 1, [Topic(Text(topic), Minutes(Number(hours)))])]))
  {
    var e := Entry(topic, Text(topic), Topic(Text(topic), Minutes(Number(hours))));
    TopicSubtopicSheetEntries(subject, topic, hours);
    assert !HitsInherited([e]);
    OneEntryPreview(e);
  }

  /** One data row under the header row Tópico, Subtópico, TE gives one entry, filed under its topic cell. */
  lemma TopicSubtopicSheetEntries(subject: Cell, topic: string, hours: int)
    requires topic != ""
    ensures Entries([[Text("Tópico"), Text("Subtópico"), Text("TE")], [subject, Text(topic), Number(hours)]])
            == [Entry(topic, Text(topic), Topic(Text(topic), Minutes(Number(hours))))]
  {
    var header := [Text("Tópico"), Text("Subtópico"), Text("TE")];
    var data := [subject, Text(topic), Number(hours)];
    HeaderReadsSubtopicTwice();
    HeaderThenRow(header, data);
    var c := Columns(1, 1, 2, true);
    assert Contributes(c, data);
    assert EntryOf(c, data) == Entry(topic, Text(topic), Topic(Text(topic), Minutes(Number(hours))));
  }

  /** A sheet of a header row and one data row gives at most that row's entry. */
  lemma HeaderThenRow(header: seq<Cell>, data: seq<Cell>)
    requires ScanRow(NO_COLUMNS, header).headerFound
    ensures var c := ScanRow(NO_COLUMNS, header);
            Entries([header, data]) == if Contributes(c, data) then [EntryOf(c, data)] else []
  {
    var rows := [header, data];
    assert rows[..1] == [header] && rows[..1][..0] == [];
    assert rows[..2] == rows;
    EntriesStep(rows, 0);
    EntriesStep(rows, 1);
  }

  /** The preview of one entry: one subject, named by the entry's subject cell, holding its topic. */
  lemma OneEntryPreview(e: Entry)
    ensures PreviewOf([e]) == Preview(1, 1, [Subject(e.subject, COLOR, 1, [e.topic])])
  {
    var s := Subject(e.subject, COLOR, 1, [e.topic]);
    assert [e][..0] == [];
    assert [] + [e.topic] == [e.topic] && [] + [e.key] == [e.key];
    assert Group([e]) == Groups(map[e.key := s], [e.key]);
    assert [e.key][..0] == [];
    assert ValuesOf(map[e.key := s], [e.key]) == [s];
    assert [s][..0] == [];
    assert TopicTotal([s]) == TopicTotal([]) + 1;
  }

  // ---------------------------------------------------------------- minutes

  /** Leading white space is skipped up to the first other character. */
  lemma {:induction false} TrimStartSpaces(w: string, x: string)
    requires forall i :: 0 <= i < |w| ==> IsSpace(w[i])
    requires x == [] || !IsSpace(x[0])
    ensures TrimStart(w + x) == x
    decreases |w|
  {
    if w == [] {
      assert w + x == x;
    } else {
      assert (w + x)[1..] == w[1..] + x;
      TrimStartSpaces(w[1..], x);
    }
  }

  /** The digit run of a text that starts with the digits `a` and then continues with a non-digit. */
  lemma {:induction false} DigitPrefixOf(a: string, rest: string)
    requires AllDigits(a)
    requires rest == [] || !IsDigit(rest[0])
    ensures DigitPrefix(a + rest) == a
    decreases |a|
  {
    if a != [] {
      assert (a + rest)[1..] == a[1..] + rest;
      DigitPrefixOf(a[1..], rest);
    } else {
      assert a + rest == rest;
    }
  }

  /** A digit run, followed by a non-digit or nothing, reads as its value. */
  lemma LeadingDigits(digits: string, rest: string)
    requires digits != [] && AllDigits(digits)
    requires rest == [] || !IsDigit(rest[0])
    ensures ParseLeadingInt(digits + rest) == Some(ParseDigits(digits))
  {
    var t := digits + rest;
    assert t[0] == digits[0];
    assert TrimStart(t) == t by {
      TrimStartSpaces([], t);
      assert [] + t == t;
    }
    DigitPrefixOf(digits, rest);
  }

  /** A minus sign and a digit run, followed by a non-digit or nothing, read as the negated value. */
  lemma LeadingNegativeDigits(digits: string, rest: string)
    requires digits != [] && AllDigits(digits)
    requires rest == [] || !IsDigit(rest[0])
    ensures ParseLeadingInt(['-'] + (digits + rest)) == Some(0 - ParseDigits(digits))
  {
    var t := ['-'] + (digits + rest);
    assert TrimStart(t) == t by {
      TrimStartSpaces([], t);
      assert [] + t == t;
    }
    assert t[1..] == digits + rest;
    DigitPrefixOf(digits, rest);
  }

  /** A printed whole number, followed by a non-digit or nothing, reads back as that number. */
  lemma LeadingIntOfPrinted(n: int, rest: string)
    requires rest == [] || !IsDigit(rest[0])
    ensures ParseLeadingInt(IntToString(n) + rest) == Some(n)
  {
    var m: nat := if n < 0 then -n else n;
    ParseNatToString(m);
    if n < 0 {
      assert IntToString(n) + rest == ['-'] + (NatToString(m) + rest);
      LeadingNegativeDigits(NatToString(m), rest);
    } else {
      LeadingDigits(NatToString(m), rest);
    }
  }

  /** Leading white space does not change the number a text starts with. */
  lemma LeadingIntAfterSpaces(w: string, x: string)
    requires forall i :: 0 <= i < |w| ==> IsSpace(w[i])
    requires x == [] || !IsSpace(x[0])
    ensures ParseLeadingInt(w + x) == ParseLeadingInt(x)
  {
    TrimStartSpaces(w, x);
    TrimStartSpaces([], x);
    assert [] + x == x;
  }

  /**
   * An hours text reads back as the whole number it starts with: leading
   * white space is skipped and whatever follows the digits is ignored.
   */
  lemma HoursOfPrintedNumber(w: string, n: int, rest: string)
    requires forall i :: 0 <= i < |w| ==> IsSpace(w[i])
    requires rest == [] || !IsDigit(rest[0])
    ensures ParseHours(Text(w + IntToString(n) + rest)) == Some(n)
    ensures Minutes(Text(w + IntToString(n) + rest)) == if n != 0 then n * 60 else 60
  {
    var x := IntToString(n) + rest;
    assert x[0] == IntToString(n)[0];
    assert w + IntToString(n) + rest == w + x;
    LeadingIntOfPrinted(n, rest);
    LeadingIntAfterSpaces(w, x);
  }

  /** A number cell gives its hours times 60, and 0 hours gives one hour. */
  lemma MinutesOfNumber(n: int)
    ensures Minutes(Number(n)) == if n != 0 then n * 60 else 60
  {
  }

  /** A missing time column or a blank hours cell gives one hour. */
  lemma DefaultHour(c: Columns, row: seq<Cell>)
    ensures c.timeIndex == -1 ==> EntryOf(c, row).topic.estimatedMinutes == 60
    ensures CellAt(row, c.timeIndex) == Blank ==> Minutes(HoursCell(c, row)) == 60
  {
  }

  /** A text that does not start with a number, after leading white space, gives one hour. */
  lemma NonNumericTextOneHour(w: string, x: string)
    requires forall i :: 0 <= i < |w| ==> IsSpace(w[i])
    requires x == [] || (!IsSpace(x[0]) && !IsDigit(x[0]) && x[0] != '-' && x[0] != '+')
    ensures Minutes(Text(w + x)) == 60
  {
    TrimStartSpaces(w, x);
  }

  /** The minutes of a topic are never 0. */
  lemma MinutesNonZero(hours: Cell)
    ensures Minutes(hours) != 0
  {
  }

  // ---------------------------------------------------------------- entries

  /** Every entry comes from a row naming both a subject and a topic, keyed by the subject. */
  lemma {:induction false} EntriesTruthy(rows: seq<seq<Cell>>)
    ensures forall i :: 0 <= i < |Entries(rows)| ==>
              Truthy(Entries(rows)[i].subject) && Truthy(Entries(rows)[i].topic.name) &&
              Entries(rows)[i].key == Key(Entries(rows)[i].subject)
    decreases |rows|
  {
    if rows != [] {
      EntriesTruthy(rows[..|rows| - 1]);
    }
  }

  /** Every data row after the header that names a subject and a topic yields an entry. */
  lemma RowContributes(rows: seq<seq<Cell>>, n: nat)
    requires n < |rows|
    requires ColumnsAfter(rows[..n]).headerFound && Contributes(ColumnsAfter(rows[..n]), rows[n])
    ensures EntryOf(ColumnsAfter(rows[..n]), rows[n]) in Entries(rows)
  {
    EntriesStep(rows, n);
    EntriesPrefix(rows, n + 1);
    var es := Entries(rows[..n + 1]);
    assert es[|es| - 1] == Entries(rows)[|es| - 1];
  }

  // ---------------------------------------------------------------- grouping

  /** The subject dictionary holds a subject exactly for the keys among the entries. */
  lemma {:induction false} GroupKeys(es: seq<Entry>, k: string)
    ensures k in Group(es).byKey <==> exists i :: 0 <= i < |es| && es[i].key == k
    ensures k !in Group(es).byKey ==> TopicsWithKey(es, k) == []
    decreases |es|
  {
    if es != [] {
      var init := es[..|es| - 1];
      GroupKeys(init, k);
      assert forall i :: 0 <= i < |init| ==> es[i] == init[i];
    }
  }

  /**
   * Each subject of the dictionary has the fixed colour and weight and the
   * topics of the entries with its key, in row order.
   */
  lemma {:induction false} GroupTopics(es: seq<Entry>, k: string)
    requires k in Group(es).byKey
    ensures var s := Group(es).byKey[k];
            s.topics == TopicsWithKey(es, k) && s.color == COLOR && s.weight == 1
    decreases |es|
  {
    var init := es[..|es| - 1];
    if k in Group(init).byKey {
      GroupTopics(init, k);
    } else {
      GroupKeys(init, k);
      assert [] + [es[|es| - 1].topic] == [es[|es| - 1].topic];
    }
  }

  /** Each subject of the dictionary is named by the subject cell of the first entry with its key. */
  lemma {:induction false} GroupName(es: seq<Entry>, k: string)
    requires k in Group(es).byKey
    ensures exists i :: 0 <= i < |es| && es[i].key == k && Group(es).byKey[k].name == es[i].subject &&
                        forall j :: 0 <= j < i ==> es[j].key != k
    decreases |es|
  {
    var init := es[..|es| - 1];
    assert forall i :: 0 <= i < |init| ==> es[i] == init[i];
    if k in Group(init).byKey {
      GroupName(init, k);
      var i :| 0 <= i < |init| && init[i].key == k && Group(init).byKey[k].name == init[i].subject &&
               forall j :: 0 <= j < i ==> init[j].key != k;
      assert es[i].key == k && Group(es).byKey[k].name == es[i].subject;
    } else {
      GroupKeys(init, k);
      var i := |es| - 1;
      assert es[i].key == k && Group(es).byKey[k].name == es[i].subject;
    }
  }

  /** The dictionary's key order names each subject once. */
  lemma {:induction false} GroupDistinct(es: seq<Entry>)
    ensures Distinct(Group(es).order)
    decreases |es|
  {
    if es != [] {
      GroupDistinct(es[..|es| - 1]);
    }
  }

  /** One more entry adds one topic to the count over a list of keys exactly when its key is listed. */
  lemma {:induction false} SumCountsAppendEntry(es: seq<Entry>, e: Entry, keys: seq<string>)
    requires Distinct(keys)
    ensures SumCounts(es + [e], keys) == SumCounts(es, keys) + if e.key in keys then 1 else 0
    decreases |keys|
  {
    if keys != [] {
      var init := keys[..|keys| - 1];
      assert forall k :: k in keys <==> k in init || k == keys[|keys| - 1];
      SumCountsAppendEntry(es, e, init);
      assert (es + [e])[..|es|] == es;
    }
  }

  /** The count over one more key. */
  lemma SumCountsAppendKey(es: seq<Entry>, keys: seq<string>, k: string)
    ensures SumCounts(es, keys + [k]) == SumCounts(es, keys) + |TopicsWithKey(es, k)|
  {
    assert (keys + [k])[..|keys|] == keys;
  }

  /** Counted over the dictionary's keys, the topics are as many as the entries. */
  lemma {:induction false} CountAll(es: seq<Entry>)
    ensures SumCounts(es, Group(es).order) == |es|
    decreases |es|
  {
    if es != [] {
      var init := es[..|es| - 1];
      var e := es[|es| - 1];
      assert es == init + [e];
      CountAll(init);
      GroupDistinct(init);
      var g := Group(init);
      SumCountsAppendEntry(init, e, g.order);
      if e.key !in g.byKey {
        GroupKeys(init, e.key);
        SumCountsAppendKey(es, g.order, e.key);
        assert TopicsWithKey(es, e.key) == [e.topic];
      }
    }
  }

  /** The topic total of the dictionary's subjects is the count of their keys' topics. */
  lemma {:induction false} TopicTotalValues(es: seq<Entry>, byKey: map<string, Subject>, keys: seq<string>)
    requires forall k :: k in keys ==> k in byKey && byKey[k].topics == TopicsWithKey(es, k)
    ensures TopicTotal(ValuesOf(byKey, keys)) == SumCounts(es, keys)
    decreases |keys|
  {
    if keys != [] {
      var init := keys[..|keys| - 1];
      TopicTotalValues(es, byKey, init);
      var v := ValuesOf(byKey, keys);
      assert v[..|v| - 1] == ValuesOf(byKey, init);
    }
  }

  /** A list without repetitions has as many distinct elements as positions. */
  lemma {:induction false} DistinctCard<T>(s: seq<T>)
    requires Distinct(s)
    ensures |set x | x in s| == |s|
    decreases |s|
  {
    if s != [] {
      var init := s[..|s| - 1];
      DistinctCard(init);
      assert (set x | x in s) == (set x | x in init) + {s[|s| - 1]};
    }
  }

  /**
   * The preview totals: as many topics as contributing rows, and as many
   * subjects as distinct subject keys.
   */
  lemma PreviewTotals(es: seq<Entry>)
    ensures PreviewOf(es).totalTopics == |es|
    ensures PreviewOf(es).totalSubjects == |KeySet(es)|
  {
    var g := Group(es);
    forall k | k in g.order
      ensures k in g.byKey && g.byKey[k].topics == TopicsWithKey(es, k)
    {
      GroupTopics(es, k);
    }
    TopicTotalValues(es, g.byKey, g.order);
    CountAll(es);
    GroupDistinct(es);
    DistinctCard(g.order);
    assert (set x | x in g.order) == KeySet(es) by {
      forall k
        ensures k in g.order <==> k in KeySet(es)
      {
        GroupKeys(es, k);
      }
    }
  }

  /** Reading a sheet that succeeds gives the totals of its contributing rows. */
  lemma ReadSheetTotals(rows: seq<seq<Cell>>)
    requires ReadSheet(rows).Success?
    ensures ReadSheet(rows).value.totalTopics == |Entries(rows)|
    ensures ReadSheet(rows).value.totalSubjects == |KeySet(Entries(rows))|
  {
    PreviewTotals(Entries(rows));
  }

  /** A subject named like an inherited object property makes reading fail. */
  lemma InheritedNameFails(rows: seq<seq<Cell>>, i: int)
    requires 0 <= i < |Entries(rows)| && Entries(rows)[i].key == "constructor"
    ensures ReadSheet(rows) == Failure(UnreadableSheet)
  {
  }
}
