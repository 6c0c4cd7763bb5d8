/**
 Importing a file whose delimiter is not known (`sniffDelimiter` and `parseCsv` in
 `csv-import.ts`): every candidate is tried on the whole text, and the one whose first rows are
 widest and alike is taken.
 */
module CsvImport {
  import opened Csv

  const BOM := '\U{FEFF}'
  const DELIMITERS: seq<char> := [',', '\t', ';', '|']

  predicate Blank(row: seq<string>) {
    forall j :: 0 <= j < |row| ==> row[j] == ""
  }

  function NonBlankRows(table: Table): Table {
    if table == [] then []
    else (if Blank(table[0]) then [] else [table[0]]) + NonBlankRows(table[1..])
  }

  /** A row is kept, where it stands, exactly if some field of it is not empty. */
  lemma {:induction false} RowIsKept(before: Table, row: seq<string>, after: Table)
    ensures NonBlankRows(before + [row] + after) ==
            NonBlankRows(before) + (if exists j :: 0 <= j < |row| && row[j] != "" then [row] else [])
            + NonBlankRows(after)
    ensures NonBlankRows([]) == []
  {
    assert Blank(row) <==> !exists j :: 0 <= j < |row| && row[j] != "";
    hide Blank;
    var table := before + [row] + after;
    if before == [] {
      assert table[0] == row && table[1..] == after;
    } else {
      var first := if Blank(before[0]) then [] else [before[0]];
      assert table[0] == before[0] && table[1..] == before[1..] + [row] + after;
      RowIsKept(before[1..], row, after);
      assert NonBlankRows(table) == first + NonBlankRows(table[1..]);
      assert NonBlankRows(before) == first + NonBlankRows(before[1..]);
    }
  }

  predicate Even(table: Table, width: nat) {
    forall i :: 0 <= i < |table| ==> |table[i]| == width
  }

  function Sample(table: Table): Table {
    if |table| < 10 then table else table[..10]
  }

  /** Width times height of the sample if its rows are alike; a text without rows comes last. */
  function Score(text: string, delimiter: char): int {
    var rows := Sample(NonBlankRows(Parse(text, delimiter, START)));
    if rows == [] then -1 else if Even(rows, |rows[0]|) then |rows[0]| * |rows| else 0
  }

  /** The first of the best among the first `n` candidates. */
  function BestOf(text: string, n: nat): (k: nat)
    requires 1 <= n <= |DELIMITERS|
    ensures k < n
  {
    if n == 1 then 0
    else
      var k := BestOf(text, n - 1);
      if Score(text, DELIMITERS[n - 1]) > Score(text, DELIMITERS[k]) then n - 1 else k
  }

  lemma {:induction false} BestIsFirstMaximum(text: string, n: nat)
    requires 1 <= n <= |DELIMITERS|
    ensures forall i :: 0 <= i < n ==> Score(text, DELIMITERS[i]) <= Score(text, DELIMITERS[BestOf(text, n)])
    ensures forall i :: 0 <= i < BestOf(text, n) ==>
              Score(text, DELIMITERS[i]) < Score(text, DELIMITERS[BestOf(text, n)])
  {
    hide Score;
    if n > 1 {
      BestIsFirstMaximum(text, n - 1);
    }
  }

  function Sniff(text: string): char {
    DELIMITERS[BestOf(text, |DELIMITERS|)]
  }

  method SniffDelimiter(text: string) returns (best: char)
    ensures best == Sniff(text) == [',', '\t', ';', '|'][BestOf(text, 4)]
  {
    hide Score;
    best := ',';
    var bestScore := -1;
    var i := 0;
    while i < |DELIMITERS|
      invariant 0 <= i <= |DELIMITERS|
      invariant i == 0 ==> best == ',' && bestScore == -1
      invariant i > 0 ==> best == DELIMITERS[BestOf(text, i)] && bestScore == Score(text, best)
    {
      var score := ScoreOf(text, DELIMITERS[i]);
      if score > bestScore {
        best := DELIMITERS[i];
        bestScore := score;
      }
      i := i + 1;
    }
  }

  method ScoreOf(text: string, delimiter: char) returns (score: int)
    ensures score == Score(text, delimiter) >= -1
    ensures var rows := NonBlankRows(Parse(text, delimiter, START));
            var n := if |rows| < 10 then |rows| else 10;
            score == if n == 0 then -1
                     else if forall i :: 0 <= i < n ==> |rows[i]| == |rows[0]| then |rows[0]| * n else 0
  {
    var table := ParseTable(text, delimiter);
    var rows := Sample(NonBlankRows(table));
    if rows == [] {
      score := -1;
    } else {
      var even := true;
      for i := 0 to |rows|
        invariant even <==> forall j :: 0 <= j < i ==> |rows[j]| == |rows[0]|
      {
        even := even && |rows[i]| == |rows[0]|;
      }
      score := if even then |rows[0]| * |rows| else 0;
    }
  }

  // -------------------------------------------------------------- the import

  datatype Parsed = Parsed(headers: seq<string>, rows: Table)

  function Padded(row: seq<string>, width: nat): seq<string> {
    seq(width, j requires 0 <= j < width => if j < |row| then row[j] else "")
  }

  function PaddedRows(table: Table, width: nat): Table {
    seq(|table|, i requires 0 <= i < |table| => Padded(table[i], width))
  }

  function WithoutMark(text: string): string {
    if text != "" && text[0] == BOM then text[1..] else text
  }

  function Imported(text: string): Parsed {
    var input := WithoutMark(text);
    var table := NonBlankRows(Parse(input, Sniff(input), START));
    if table == [] then Parsed([], []) else Parsed(table[0], PaddedRows(table[1..], |table[0]|))
  }

  method ParseCsv(text: string) returns (parsed: Parsed)
    ensures parsed == Imported(text)
    ensures var input := if text != "" && text[0] == '\U{FEFF}' then text[1..] else text;
            var table := NonBlankRows(Parse(input, Sniff(input), START));
            if table == [] then parsed == Parsed([], [])
            else
              && parsed.headers == table[0] && |parsed.rows| == |table| - 1
              && forall i :: 0 <= i < |parsed.rows| ==>
                   && |parsed.rows[i]| == |table[0]|
                   && forall j :: 0 <= j < |table[0]| ==>
                        parsed.rows[i][j] == if j < |table[i + 1]| then table[i + 1][j] else ""
  {
    hide Parse, NonBlankRows, Sniff;
    var input := WithoutMark(text);
    var delimiter := SniffDelimiter(input);
    var parsedTable := ParseTable(input, delimiter);
    var table := NonBlankRows(parsedTable);
    if table == [] {
      return Parsed([], []);
    }
    var rows: Table := [];
    for i := 1 to |table|
      invariant rows == PaddedRows(table[1..][..i - 1], |table[0]|)
    {
      rows := rows + [Padded(table[i], |table[0]|)];
    }
    assert table[1..][..|table| - 1] == table[1..];
    parsed := Parsed(table[0], rows);
  }

  // -------------------------------------------------------------- a delimiter that is not there

  function Join(row: seq<string>, delimiter: char): string {
    if row == [] then ""
    else if |row| == 1 then row[0]
    else Join(row[..|row| - 1], delimiter) + [delimiter] + row[|row| - 1]
  }

  function JoinRows(table: Table, delimiter: char): Table {
    seq(|table|, i requires 0 <= i < |table| => [Join(table[i], delimiter)])
  }

  /** The state of a reader that takes the delimiter for an ordinary character. */
  function Joined(r: Reader, delimiter: char): Reader {
    Reader(JoinRows(r.rows, delimiter), [], Join(r.row + [r.field], delimiter), r.quoted)
  }

  lemma JoinMore(row: seq<string>, field: string, delimiter: char)
    ensures Join(row + [field], delimiter) == if row == [] then field else Join(row, delimiter) + [delimiter] + field
  {
    assert (row + [field])[..|row|] == row;
  }

  lemma JoinedCharacter(r: Reader, c: char, delimiter: char)
    ensures Joined(r.(field := r.field + [c]), delimiter) ==
            Joined(r, delimiter).(field := Joined(r, delimiter).field + [c])
  {
    JoinMore(r.row, r.field, delimiter);
    JoinMore(r.row, r.field + [c], delimiter);
  }

  lemma JoinedField(r: Reader, delimiter: char)
    ensures Joined(EndField(r), delimiter) == Joined(r, delimiter).(field := Joined(r, delimiter).field + [delimiter])
  {
    JoinMore(r.row + [r.field], "", delimiter);
    var s := Join(r.row + [r.field], delimiter) + [delimiter];
    assert s + "" == s;
  }

  lemma FreshRow(delimiter: char)
    ensures Join([] + [""], delimiter) == ""
  {
    assert [] + [""] == [""];
  }

  lemma OneRowMore(rows: Table, row: seq<string>, delimiter: char)
    ensures JoinRows(rows + [row], delimiter) == JoinRows(rows, delimiter) + [[Join(row, delimiter)]]
  {
    hide Join;
  }

  lemma JoinedRow(r: Reader, delimiter: char)
    ensures Joined(EndRow(r), delimiter) == EndRow(Joined(r, delimiter))
    ensures EndText(Joined(r, delimiter)) == JoinRows(EndText(r), delimiter)
  {
    FreshRow(delimiter);
    hide Join, JoinRows;
    JoinMore(r.row, r.field, delimiter);
    var row := r.row + [r.field];
    OneRowMore(r.rows, row, delimiter);
    assert [] + [Join(row, delimiter)] == [Join(row, delimiter)];
  }

  /** Reading a text with a delimiter that does not occur in it finds the same rows, each of them one
      field with the real delimiters left in. */
  lemma {:induction false} AbsentDelimiterJoins(text: string, delimiter: char, absent: char, r: Reader)
    requires Delimiter(delimiter) && absent !in text
    ensures Parse(text, absent, Joined(r, delimiter)) == JoinRows(Parse(text, delimiter, r), delimiter)
    decreases |text|
  {
    hide Joined, JoinRows, EndText, EndRow, EndField;
    if text == "" {
      JoinedRow(r, delimiter);
    } else {
      assert absent !in text[1..] && text[0] != absent;
      JoinedStep(text, delimiter, r);
      var c, next := text[0], if Skips(text, r) then 2 else 1;
      assert absent !in text[next..];
      AbsentDelimiterJoins(text[next..], delimiter, absent, Stepped(text, delimiter, r));
      ParseSteps(text, delimiter, r);
      ParseSteps(text, absent, Joined(r, delimiter));
    }
  }

  /** Whether the reader takes two characters at once: a doubled quote, or CR with LF. */
  predicate Skips(text: string, r: Reader)
    requires text != ""
  {
    if r.quoted then text[0] == QUOTE && Then(text, QUOTE) else text[0] == CR && Then(text, LF)
  }

  /** One round of the reader's loop. */
  function Stepped(text: string, delimiter: char, r: Reader): Reader
    requires text != ""
  {
    if r.quoted && text[0] == QUOTE && !Then(text, QUOTE) then r.(quoted := false)
    else if r.quoted then r.(field := r.field + [text[0]])
    else if text[0] == QUOTE then r.(quoted := true)
    else if text[0] == delimiter then EndField(r)
    else if text[0] == LF || text[0] == CR then EndRow(r)
    else r.(field := r.field + [text[0]])
  }

  lemma ParseSteps(text: string, delimiter: char, r: Reader)
    requires text != "" && (text[0] == CR && !r.quoted ==> delimiter != CR)
    ensures Parse(text, delimiter, r) ==
            Parse(text[if Skips(text, r) then 2 else 1..], delimiter, Stepped(text, delimiter, r))
  {
  }

  lemma JoinedStep(text: string, delimiter: char, r: Reader)
    requires text != "" && Delimiter(delimiter)
    ensures Skips(text, Joined(r, delimiter)) == Skips(text, r)
    ensures forall absent :: absent != text[0] ==>
              Stepped(text, absent, Joined(r, delimiter)) == Joined(Stepped(text, delimiter, r), delimiter)
  {
    hide EndField, EndRow, Join, JoinRows;
    JoinedCharacter(r, text[0], delimiter);
    JoinedField(r, delimiter);
    JoinedRow(r, delimiter);
  }

  /** Whatever two delimiters a text is read with, the rows are the same but for where they are split. */
  lemma {:induction false} DelimitersAgree(text: string, d: char, e: char, r: Reader, s: Reader)
    requires Delimiter(d) && Delimiter(e) && Joined(r, d) == Joined(s, e)
    ensures JoinRows(Parse(text, d, r), d) == JoinRows(Parse(text, e, s), e)
    decreases |text|
  {
    hide Joined, JoinRows, EndText, EndRow, EndField, Parse, Stepped, Skips;
    if text == "" {
      JoinedRow(r, d);
      JoinedRow(s, e);
      EndOfParse(d, r);
      EndOfParse(e, s);
    } else {
      var other := if text[0] == 'a' then 'b' else 'a';
      JoinedStep(text, d, r);
      JoinedStep(text, e, s);
      assert Stepped(text, other, Joined(r, d)) == Joined(Stepped(text, d, r), d);
      assert Stepped(text, other, Joined(s, e)) == Joined(Stepped(text, e, s), e);
      var next := if Skips(text, r) then 2 else 1;
      SkipsWithin(text, r);
      DelimitersAgree(text[next..], d, e, Stepped(text, d, r), Stepped(text, e, s));
      ParseSteps(text, d, r);
      ParseSteps(text, e, s);
    }
  }

  lemma EndOfParse(delimiter: char, r: Reader)
    ensures Parse("", delimiter, r) == EndText(r)
  {
  }

  lemma SkipsWithin(text: string, r: Reader)
    requires text != ""
    ensures Skips(text, r) ==> |text| >= 2
  {
  }

  // -------------------------------------------------------------- finding the delimiter

  lemma {:induction false} JoinBlank(row: seq<string>, delimiter: char)
    requires row != []
    ensures Join(row, delimiter) == "" <==> row == [""]
  {
  }

  lemma {:induction false} NoBlankRows(table: Table)
    requires forall i :: 0 <= i < |table| ==> !Blank(table[i])
    ensures NonBlankRows(table) == table
  {
    if table != [] {
      NoBlankRows(table[1..]);
    }
  }

  /** A table as a file holds it: rows of one width, none of them blank. */
  ghost predicate Rectangular(table: Table, width: nat) {
    table != [] && Even(table, width) && forall i :: 0 <= i < |table| ==> !Blank(table[i])
  }

  lemma JoinedIsRectangular(table: Table, width: nat, delimiter: char)
    requires Rectangular(table, width)
    ensures width > 0 && Rectangular(JoinRows(table, delimiter), 1)
    ensures width == 1 ==> JoinRows(table, delimiter) == table
  {
    var joined := JoinRows(table, delimiter);
    assert !Blank(table[0]);
    forall i | 0 <= i < |table| ensures !Blank(joined[i]) && (width == 1 ==> joined[i] == table[i]) {
      assert !Blank(table[i]);
      JoinBlank(table[i], delimiter);
      assert joined[i][0] == Join(table[i], delimiter);
    }
  }

  lemma ScoreOfRectangle(text: string, delimiter: char, table: Table, width: nat)
    requires Parse(text, delimiter, START) == table && Rectangular(table, width)
    ensures NonBlankRows(table) == table
    ensures Score(text, delimiter) == width * |Sample(table)| && |Sample(table)| > 0
  {
    NoBlankRows(table);
    var rows := Sample(table);
    assert Even(rows, |rows[0]|) && |rows[0]| == width;
  }

  /** The other candidates do not occur in the text, or score less, or as much but come later. */
  ghost predicate Outdoes(text: string, k: nat)
    requires k < |DELIMITERS|
  {
    forall j :: 0 <= j < |DELIMITERS| && j != k ==>
      || DELIMITERS[j] !in text
      || Score(text, DELIMITERS[j]) < Score(text, DELIMITERS[k])
      || (Score(text, DELIMITERS[j]) == Score(text, DELIMITERS[k]) && k < j)
  }

  /** A text that is a rectangle under one candidate, which outdoes the others, is read as that
      rectangle, whichever candidate is chosen. */
  lemma SniffedReading(text: string, k: nat, table: Table, width: nat)
    requires k < |DELIMITERS| && Outdoes(text, k)
    requires Parse(text, DELIMITERS[k], START) == table && Rectangular(table, width)
    ensures NonBlankRows(Parse(text, Sniff(text), START)) == table
  {
    hide Parse, Score, Rectangular, NonBlankRows, JoinRows, Sample, BestOf;
    var b := BestOf(text, |DELIMITERS|);
    BestIsFirstMaximum(text, |DELIMITERS|);
    ScoreOfRectangle(text, DELIMITERS[k], table, width);
    if b != k {
      assert DELIMITERS[b] !in text;
      var joined := JoinRows(table, DELIMITERS[k]);
      AbsentFromStart(text, DELIMITERS[k], DELIMITERS[b]);
      JoinedIsRectangular(table, width, DELIMITERS[k]);
      ScoreOfRectangle(text, DELIMITERS[b], joined, 1);
      SameSample(table, DELIMITERS[k]);
      OneColumn(width, |Sample(table)|);
    }
  }

  lemma AbsentFromStart(text: string, delimiter: char, absent: char)
    requires Delimiter(delimiter) && absent !in text
    ensures Parse(text, absent, START) == JoinRows(Parse(text, delimiter, START), delimiter)
  {
    AbsentDelimiterJoins(text, delimiter, absent, START);
    assert START.row + [START.field] == [""];
    assert JoinRows(START.rows, delimiter) == [];
    assert Joined(START, delimiter) == START;
  }

  lemma SameSample(table: Table, delimiter: char)
    ensures |Sample(JoinRows(table, delimiter))| == |Sample(table)|
  {
  }

  lemma OneColumn(width: nat, height: nat)
    requires width > 0 && height > 0 && width * height <= 1 * height
    ensures width == 1
  {
    if width > 1 {
      WiderIsMore(width, height);
    }
  }

  lemma WiderIsMore(width: nat, height: nat)
    requires width > 1 && height > 0
    ensures width * height > height
  {
    assert width * height == (width - 1) * height + height;
  }

  lemma PaddingChangesNothing(table: Table, width: nat)
    requires Even(table, width)
    ensures PaddedRows(table, width) == table
  {
    forall i | 0 <= i < |table| ensures Padded(table[i], width) == table[i] {
    }
  }

  // -------------------------------------------------------------- exactly when it is found

  lemma {:induction false} JoinLength(row: seq<string>, d: char, e: char)
    ensures |Join(row, d)| == |Join(row, e)|
  {
    if |row| > 1 {
      JoinLength(row[..|row| - 1], d, e);
    }
  }

  lemma JoinTellsDelimiters(row: seq<string>, d: char, e: char)
    requires |row| > 1 && d != e
    ensures Join(row, d) != Join(row, e)
  {
    var init := row[..|row| - 1];
    JoinLength(init, d, e);
    assert Join(row, d)[|Join(init, d)|] == d && Join(row, e)[|Join(init, e)|] == e;
  }

  lemma {:induction false} JoinIsLonger(row: seq<string>, delimiter: char)
    requires |row| > 1
    ensures |Join(row, delimiter)| > |row[0]|
  {
    if |row| > 2 {
      JoinIsLonger(row[..|row| - 1], delimiter);
    }
  }

  lemma {:induction false} FewerThanAll(table: Table)
    ensures |NonBlankRows(table)| <= |table|
    ensures |NonBlankRows(table)| == |table| ==> NonBlankRows(table) == table
  {
    if table != [] {
      FewerThanAll(table[1..]);
    }
  }

  /** A row of another reading, cut to one column, is the row itself. */
  lemma OneFieldRow(row: seq<string>, other: seq<string>, d: char, e: char)
    requires |row| == 1 && !Blank(row) && Join(row, d) == Join(other, e) && Padded(other, 1) == row
    ensures other == row
  {
    assert row[0] != "" && Padded(other, 1)[0] == row[0];
    if |other| > 1 {
      JoinIsLonger(other, e);
    }
  }

  lemma SameRow(table: Table, other: Table, d: char, e: char, i: nat)
    requires JoinRows(table, d) == JoinRows(other, e) && i < |table|
    ensures |other| == |table| && Join(table[i], d) == Join(other[i], e)
  {
    assert |JoinRows(table, d)| == |JoinRows(other, e)|;
    assert JoinRows(table, d)[i] == JoinRows(other, e)[i];
    assert JoinRows(table, d)[i][0] == JoinRows(other, e)[i][0];
  }

  /** What an import makes of the rows it has read. */
  function Headed(table: Table): Parsed {
    if table == [] then Parsed([], []) else Parsed(table[0], PaddedRows(table[1..], |table[0]|))
  }

  /** Two readings of a text give the same import only if they are the same and of one column. */
  lemma OtherReading(table: Table, other: Table, d: char, e: char, width: nat)
    requires Rectangular(table, width) && d != e && JoinRows(table, d) == JoinRows(other, e)
    ensures Headed(NonBlankRows(other)) == Parsed(table[0], table[1..]) <==> width == 1 && other == table
  {
    hide Join, JoinRows, Blank, Padded;
    var kept := NonBlankRows(other);
    NoBlankRows(table);
    FewerThanAll(other);
    SameRow(table, other, d, e, 0);
    if Headed(kept) == Parsed(table[0], table[1..]) {
      NotEmptyRow(table[0]);
      assert |PaddedRows(kept[1..], |kept[0]|)| == |table[1..]|;
      assert kept == other && other[0] == table[0];
      if width > 1 {
        JoinTellsDelimiters(table[0], d, e);
      }
      forall i | 0 < i < |table|
        ensures other[i] == table[i]
      {
        SameRow(table, other, d, e, i);
        assert PaddedRows(kept[1..], |kept[0]|)[i - 1] == table[1..][i - 1];
        OneFieldRow(table[i], other[i], d, e);
      }
    }
    if width == 1 && other == table {
      PaddingChangesNothing(table[1..], width);
    }
  }

  lemma NotEmptyRow(row: seq<string>)
    requires !Blank(row)
    ensures row != []
  {
  }

  /** Main result: a text that is a rectangle under one candidate is imported as that rectangle if and
      only if that candidate is the one chosen, or the rectangle has one column and the chosen candidate
      reads the same. */
  lemma ImportedExactly(text: string, k: nat, table: Table, width: nat)
    requires k < |DELIMITERS| && WithoutMark(text) == text
    requires Parse(text, DELIMITERS[k], START) == table && Rectangular(table, width)
    ensures Imported(text) == Parsed(table[0], table[1..]) <==>
            Sniff(text) == DELIMITERS[k] || (width == 1 && Parse(text, Sniff(text), START) == table)
  {
    hide Parse, Sniff, Rectangular, NonBlankRows, JoinRows, PaddedRows;
    var d, e := DELIMITERS[k], Sniff(text);
    var other := Parse(text, e, START);
    assert Imported(text) == Headed(NonBlankRows(other));
    SniffIsCandidate(text);
    if d == e {
      RectangleIsHeaded(table, width);
    } else {
      JoinedStarts(d, e);
      DelimitersAgree(text, d, e, START, START);
      OtherReading(table, other, d, e, width);
    }
  }

  lemma RectangleIsHeaded(table: Table, width: nat)
    requires Rectangular(table, width)
    ensures table != [] && Headed(NonBlankRows(table)) == Parsed(table[0], table[1..])
  {
    NoBlankRows(table);
    PaddingChangesNothing(table[1..], width);
  }

  lemma JoinedStarts(d: char, e: char)
    ensures Joined(START, d) == Joined(START, e)
  {
    assert START.row + [START.field] == [""];
    assert JoinRows([], d) == [] == JoinRows([], e);
  }

  lemma SniffIsCandidate(text: string)
    ensures Sniff(text) in DELIMITERS && Delimiter(Sniff(text))
    ensures forall k :: 0 <= k < |DELIMITERS| ==> Delimiter(DELIMITERS[k])
  {
    hide BestOf;
  }

  /** Which candidate is chosen. */
  lemma SniffedExactly(text: string, k: nat)
    requires k < |DELIMITERS|
    ensures Sniff(text) == DELIMITERS[k] <==>
            && (forall j :: 0 <= j < k ==> Score(text, DELIMITERS[j]) < Score(text, DELIMITERS[k]))
            && (forall j :: k < j < |DELIMITERS| ==> Score(text, DELIMITERS[j]) <= Score(text, DELIMITERS[k]))
  {
    hide Score, BestOf;
    var b := BestOf(text, |DELIMITERS|);
    BestIsFirstMaximum(text, |DELIMITERS|);
    assert DELIMITERS[b] == DELIMITERS[k] ==> b == k;
  }

  // -------------------------------------------------------------- written columns

  /** What a plain field makes of the reader if delimiters in it count. */
  function Fed(value: string, delimiter: char, r: Reader): Reader {
    if value == "" then r
    else Fed(value[1..], delimiter, if value[0] == delimiter then EndField(r) else r.(field := r.field + [value[0]]))
  }

  lemma {:induction false} FedSplits(value: string, delimiter: char, r: Reader)
    ensures Fed(value, delimiter, r).rows == r.rows && Fed(value, delimiter, r).quoted == r.quoted
    ensures |Fed(value, delimiter, r).row| >= |r.row| + if delimiter in value then 1 else 0
  {
    if value != "" {
      assert value == [value[0]] + value[1..];
      FedSplits(value[1..], delimiter,
                if value[0] == delimiter then EndField(r) else r.(field := r.field + [value[0]]));
    }
  }

  lemma {:induction false} ReadFed(value: string, rest: string, d: char, e: char, r: Reader)
    requires Plain(value, d) && !r.quoted
    ensures Parse(value + rest, e, r) == Parse(rest, e, Fed(value, e, r))
  {
    if value == "" {
      assert value + rest == rest;
    } else {
      assert !Special(value[0], d);
      assert (value + rest)[1..] == value[1..] + rest;
      ReadFed(value[1..], rest, d, e, if value[0] == e then EndField(r) else r.(field := r.field + [value[0]]));
    }
  }

  /** Reading on never takes back a row. */
  lemma {:induction false} RowsStay(text: string, delimiter: char, r: Reader)
    ensures r.rows <= Parse(text, delimiter, r)
    decreases |text|
  {
    if text != "" && (text[0] != CR || r.quoted || delimiter != CR) {
      ParseSteps(text, delimiter, r);
      hide Parse;
      RowsStay(text[if Skips(text, r) then 2 else 1..], delimiter, Stepped(text, delimiter, r));
    } else if text != "" {
      RowsStay(text[1..], delimiter, EndField(r));
    }
  }

  /** A column of fields. */
  ghost predicate OneColumnOf(cells: seq<seq<Cell>>) {
    forall i :: 0 <= i < |cells| ==> |cells[i]| == 1
  }

  /** No unquoted field of the column holds the character. */
  ghost predicate FreeOf(cells: seq<seq<Cell>>, c: char)
    requires OneColumnOf(cells)
  {
    forall i :: 0 <= i < |cells| ==> cells[i][0].quoted || c !in cells[i][0].value
  }

  lemma {:induction false} ColumnText(cells: seq<seq<Cell>>, d: char, e: char, eol: string)
    requires OneColumnOf(cells)
    ensures ShowTable(cells, d, eol) == ShowTable(cells, e, eol)
  {
    hide Show;
    if cells != [] {
      assert ShowRow(cells[0], d) == Show(cells[0][0]) == ShowRow(cells[0], e);
      ColumnText(cells[1..], d, e, eol);
    }
  }

  lemma FreeIsWritable(cells: seq<seq<Cell>>, d: char, e: char)
    requires OneColumnOf(cells) && Writable(cells, d) && FreeOf(cells, e)
    ensures Writable(cells, e)
  {
    forall i | 0 <= i < |cells|
      ensures LegalRow(cells[i], e)
    {
      assert LegalRow(cells[i], d) && Legal(cells[i][0], d);
      var value := cells[i][0].value;
      assert forall j :: 0 <= j < |value| ==> value[j] in value;
    }
  }

  /** A field with the character in it, unquoted, makes a row of two or more. */
  lemma ReadSplitRow(cell: Cell, rest: string, d: char, e: char, eol: string, rows: Table)
    requires Legal(cell, d) && !cell.quoted && e in cell.value && Delimiter(e) && LineEnding(eol)
    requires eol == [CR] ==> rest == "" || rest[0] != LF
    ensures var table := Parse(Show(cell) + eol + rest, e, Reader(rows, [], "", false));
            |table| > |rows| && |table[|rows|]| > 1
  {
    hide Parse, Fed, Plain;
    var r := Reader(rows, [], "", false);
    var fed := Fed(cell.value, e, r);
    assert Show(cell) + eol + rest == cell.value + (eol + rest);
    ReadFed(cell.value, eol + rest, d, e, r);
    FedSplits(cell.value, e, r);
    ReadLineEnding(eol, rest, e, fed);
    RowsStay(rest, e, EndRow(fed));
    assert EndRow(fed).rows[|rows|] == fed.row + [fed.field];
  }

  lemma {:induction false} SplitSomewhere(cells: seq<seq<Cell>>, d: char, e: char, eol: string, rows: Table)
    requires OneColumnOf(cells) && Writable(cells, d) && !FreeOf(cells, e)
    requires Delimiter(d) && Delimiter(e) && LineEnding(eol)
    ensures var table := Parse(ShowTable(cells, d, eol), e, Reader(rows, [], "", false));
            exists i :: |rows| <= i < |table| && |table[i]| > 1
  {
    hide Parse, Show, Legal, ShowTable, LineEnding, Values;
    var cell, after := cells[0][0], ShowTable(cells[1..], d, eol);
    ColumnUnfolds(cells, d, eol);
    assert LegalRow(cells[0], d) && Writable(cells[1..], d);
    AfterColumn(cells[1..], d, eol);
    if !cell.quoted && e in cell.value {
      assert Legal(cell, d);
      ReadSplitRow(cell, after, d, e, eol, rows);
    } else {
      FirstIsFree(cells, e);
      FreeIsWritable(cells[..1], d, e);
      assert LegalRow(cells[..1][0], e);
      OneCell(cell, e);
      assert cells[0] == [cell];
      ReadRowAndEnding(cells[0], after, e, eol, rows);
      SplitSomewhere(cells[1..], d, e, eol, rows + [Values(cells[0])]);
    }
  }

  lemma ColumnUnfolds(cells: seq<seq<Cell>>, d: char, eol: string)
    requires cells != [] && OneColumnOf(cells)
    ensures ShowTable(cells, d, eol) == Show(cells[0][0]) + eol + ShowTable(cells[1..], d, eol)
  {
    hide Show;
    assert ShowRow(cells[0], d) == Show(cells[0][0]);
  }

  lemma AfterColumn(cells: seq<seq<Cell>>, d: char, eol: string)
    requires Writable(cells, d) && Delimiter(d)
    ensures eol == [CR] ==> ShowTable(cells, d, eol) == "" || ShowTable(cells, d, eol)[0] != LF
  {
    if eol == [CR] {
      NoStrayLineFeed(cells, [], d);
      assert ShowTable(cells, d, [CR]) + "" == ShowTable(cells, d, [CR]);
    }
  }

  lemma FirstIsFree(cells: seq<seq<Cell>>, e: char)
    requires OneColumnOf(cells) && !FreeOf(cells, e) && cells != []
    requires cells[0][0].quoted || e !in cells[0][0].value
    ensures !FreeOf(cells[1..], e) && FreeOf(cells[..1], e)
  {
    var i :| 0 <= i < |cells| && !cells[i][0].quoted && e in cells[i][0].value;
    assert cells[1..][i - 1] == cells[i];
  }

  /** A column written for one delimiter is read the same with another if and only if no unquoted field
      holds that other. */
  lemma ColumnReadsAlike(cells: seq<seq<Cell>>, d: char, e: char, eol: string)
    requires OneColumnOf(cells) && Writable(cells, d) && Delimiter(d) && Delimiter(e) && LineEnding(eol)
    ensures Parse(ShowTable(cells, d, eol), e, START) == AllValues(cells) <==> FreeOf(cells, e)
  {
    hide Parse, ShowTable, LineEnding;
    if FreeOf(cells, e) {
      FreeIsWritable(cells, d, e);
      ColumnText(cells, d, e, eol);
      RoundTrip(cells, e, eol);
    } else {
      SplitSomewhere(cells, d, e, eol, []);
      assert forall i :: 0 <= i < |AllValues(cells)| ==> |AllValues(cells)[i]| == 1;
    }
  }

  /** Main result: a rectangular table without blank rows, written with any candidate delimiter, any
      line ending and any legal quoting, is imported unchanged, with or without a byte order mark, if
      and only if its delimiter is the one chosen, or it has one column and no unquoted field of it
      holds the one chosen. */
  lemma ImportFindsTable(cells: seq<seq<Cell>>, k: nat, eol: string, width: nat)
    requires k < |DELIMITERS| && LineEnding(eol) && Writable(cells, DELIMITERS[k])
    requires Rectangular(AllValues(cells), width)
    requires var text := ShowTable(cells, DELIMITERS[k], eol); text != "" ==> text[0] != BOM
    ensures width == 1 ==> OneColumnOf(cells)
    ensures var text, table := ShowTable(cells, DELIMITERS[k], eol), AllValues(cells);
            var found := Sniff(text) == DELIMITERS[k] || (width == 1 && FreeOf(cells, Sniff(text)));
            && (Imported(text) == Parsed(table[0], table[1..]) <==> found)
            && (Imported([BOM] + text) == Parsed(table[0], table[1..]) <==> found)
  {
    hide Parse, ShowTable, Writable, NonBlankRows, LineEnding, Sniff, PaddedRows, FreeOf;
    var d := DELIMITERS[k];
    var text, table := ShowTable(cells, d, eol), AllValues(cells);
    SniffIsCandidate(text);
    RoundTrip(cells, d, eol);
    ImportedExactly(text, k, table, width);
    if width == 1 {
      assert forall i :: 0 <= i < |cells| ==> |cells[i]| == |table[i]|;
      ColumnReadsAlike(cells, d, Sniff(text), eol);
    }
    assert ([BOM] + text)[1..] == text;
  }

  /** A delimiter that outdoes the others is always found. */
  lemma OutdoingIsFound(text: string, k: nat, table: Table, width: nat)
    requires k < |DELIMITERS| && Outdoes(text, k) && WithoutMark(text) == text
    requires Parse(text, DELIMITERS[k], START) == table && Rectangular(table, width)
    ensures Imported(text) == Parsed(table[0], table[1..])
  {
    hide Parse, Score, NonBlankRows, PaddedRows, Sniff, Outdoes;
    SniffedReading(text, k, table, width);
    PaddingChangesNothing(table[1..], width);
  }

  lemma TwoRows(x: seq<Cell>, y: seq<Cell>, delimiter: char)
    ensures ShowTable([x, y], delimiter, [LF]) ==
            ShowRow(x, delimiter) + [LF] + (ShowRow(y, delimiter) + [LF])
    ensures AllValues([x, y]) == [Values(x), Values(y)]
  {
    hide ShowRow, Values;
    assert [x, y][1..] == [y] && [y][1..] == [];
    var last := ShowRow(y, delimiter) + [LF];
    assert last + "" == last && ShowTable([], delimiter, [LF]) == "";
    assert ShowTable([y], delimiter, [LF]) == last;
  }

  lemma OneCell(a: Cell, delimiter: char)
    ensures ShowRow([a], delimiter) == Show(a) && Values([a]) == [a.value]
  {
  }

  lemma TwoCells(a: Cell, b: Cell, delimiter: char)
    ensures ShowRow([a, b], delimiter) == Show(a) + [delimiter] + Show(b) && Values([a, b]) == [a.value, b.value]
  {
    assert [a, b][1..] == [b];
  }

  function Unquoted(value: string): Cell {
    Cell(value, false)
  }

  /** A file that is misread: one column, written with commas in mind, with a semicolon in each field. */
  lemma ImportMisreads()
    ensures var cells := [[Unquoted("a;b")], [Unquoted("c;d")]];
            && Writable(cells, ',')
            && Imported(ShowTable(cells, ',', [LF])) == Parsed(["a", "b"], [["c", "d"]])
  {
    hide Parse, NonBlankRows, Score, BestOf, Sniff, Imported, ShowTable, ShowRow, AllValues, Values;
    var meant := [[Unquoted("a;b")], [Unquoted("c;d")]];
    var found := [[Unquoted("a"), Unquoted("b")], [Unquoted("c"), Unquoted("d")]];
    TwoRows(meant[0], meant[1], ',');
    OneCell(meant[0][0], ',');
    OneCell(meant[1][0], ',');
    TwoRows(found[0], found[1], ';');
    TwoCells(found[0][0], found[0][1], ';');
    TwoCells(found[1][0], found[1][1], ';');
    var text := ShowTable(found, ';', [LF]);
    assert text == "a;b\nc;d\n" == ShowTable(meant, ',', [LF]);
    var table := [["a", "b"], ["c", "d"]];
    assert AllValues(found) == table;
    assert Rectangular(table, 2) by {
      assert table[0][0] != "" && table[1][0] != "";
    }
    assert DELIMITERS[2] == ';' && Outdoes(text, 2);
    RoundTrip(found, ';', [LF]);
    OutdoingIsFound(text, 2, table, 2);
  }
}
