/** Bulk binding: rows of values written as CSV, gathered into upload files, and what a reader of
    those files (commas, line breaks, optional double quotes) gets back. A missing value is NULL and
    differs from the empty string. */
module CsvUpload {
  import opened Options

  type Row = seq<Option<string>>

  // ---------------------------------------------------------------------------
  // Writing

  function DoubleQuotes(s: string): string {
    if s == [] then [] else (if s[0] == '"' then "\"\"" else [s[0]]) + DoubleQuotes(s[1..])
  }

  predicate NeedsQuotes(s: string) {
    '"' in s || '\n' in s || ',' in s || '\\' in s
  }

  function EscapeField(v: Option<string>): string {
    if v.None? then []
    else if v.value == [] then "\"\""
    else if NeedsQuotes(v.value) then "\"" + DoubleQuotes(v.value) + "\""
    else v.value
  }

  function JoinFields(row: Row): string {
    if |row| == 0 then []
    else if |row| == 1 then EscapeField(row[0])
    else EscapeField(row[0]) + "," + JoinFields(row[1..])
  }

  function RowText(row: Row): string {
    JoinFields(row) + "\n"
  }

  function Concat(texts: seq<string>): string {
    if texts == [] then [] else texts[0] + Concat(texts[1..])
  }

  function Texts(rows: seq<Row>): (r: seq<string>)
    ensures |r| == |rows| && forall i :: 0 <= i < |rows| ==> r[i] == RowText(rows[i])
  {
    seq(|rows|, i requires 0 <= i < |rows| => RowText(rows[i]))
  }

  /** `_write_params_to_byte_rows`. */
  method WriteRows(rows: seq<Row>) returns (texts: seq<string>)
    ensures texts == Texts(rows)
  {
    texts := [];
    for n := 0 to |rows|
      invariant |texts| == n && forall i :: 0 <= i < n ==> texts[i] == RowText(rows[i])
    {
      texts := texts + [RowText(rows[n])];
    }
  }

  // ---------------------------------------------------------------------------
  // Reading

  /** A reader ends a row at a newline. With `crlf` it takes a carriage return before the newline as part
      of the line break, as in section 2 of RFC 4180; with `escapes` a backslash in a field without
      quotes makes the next character an ordinary one. */
  datatype Reader = Reader(crlf: bool, escapes: bool)

  predicate Delimiter(c: char) { c == ',' || c == '\n' }

  /** A field up to its delimiter, which stays; None where the text ends first or a closing quote is
      followed by something else. */
  function ParseField(s: string, how: Reader): Option<(Option<string>, string)> {
    if s != [] && s[0] == '"' then ParseQuoted(s[1..], how) else ParsePlain(s, how)
  }

  function ParsePlain(s: string, how: Reader): Option<(Option<string>, string)> {
    var n := PlainLength(s, how);
    if n == |s| then None
    else
      var text := if how.crlf && s[n] == '\n' then WithoutReturn(s[..n]) else s[..n];
      Some((Plain(if how.escapes then Unescaped(text) else text), s[n..]))
  }

  function Unescaped(s: string): string {
    if s == [] then []
    else if s[0] == '\\' && |s| > 1 then [s[1]] + Unescaped(s[2..])
    else [s[0]] + Unescaped(s[1..])
  }

  /** A carriage return at the end of a line belongs to the line break. */
  function WithoutReturn(s: string): string {
    if s != [] && s[|s| - 1] == '\r' then s[..|s| - 1] else s
  }

  /** Nothing between delimiters is NULL. */
  function Plain(s: string): Option<string> {
    if s == [] then None else Some(s)
  }

  /** Where a field without quotes ends. */
  function PlainLength(s: string, how: Reader): (n: nat)
    ensures n <= |s| && (n < |s| ==> Delimiter(s[n]))
  {
    if s == [] || Delimiter(s[0]) then 0
    else if how.escapes && s[0] == '\\' && |s| > 1 then 2 + PlainLength(s[2..], how)
    else 1 + PlainLength(s[1..], how)
  }

  function PrependTo(c: char, r: Option<(Option<string>, string)>): Option<(Option<string>, string)> {
    if r.Some? && r.value.0.Some? then Some((Some([c] + r.value.0.value), r.value.1)) else None
  }

  function ParseQuoted(s: string, how: Reader): (r: Option<(Option<string>, string)>)
    ensures r.Some? ==> |r.value.1| < |s|
    decreases |s|
  {
    if |s| < 2 then None
    else if s[0] != '"' then PrependTo(s[0], ParseQuoted(s[1..], how))
    else if s[1] == '"' then PrependTo('"', ParseQuoted(s[2..], how))
    else if Delimiter(s[1]) then Some((Some([]), s[1..]))
    else if how.crlf && |s| > 2 && s[1] == '\r' && s[2] == '\n' then Some((Some([]), s[2..]))
    else None
  }

  /** A row up to and without its line break. */
  function ParseRow(s: string, how: Reader): (r: Option<(Row, string)>)
    ensures r.Some? ==> |r.value.1| < |s|
    decreases |s|
  {
    var first := ParseField(s, how);
    if first.None? || first.value.1 == [] then None
    else if first.value.1[0] == '\n' then Some(([first.value.0], first.value.1[1..]))
    else
      var rest := ParseRow(first.value.1[1..], how);
      if rest.None? then None else Some(([first.value.0] + rest.value.0, rest.value.1))
  }

  function ParseFile(s: string, how: Reader): Option<seq<Row>>
    decreases |s|
  {
    if s == [] then Some([])
    else
      var first := ParseRow(s, how);
      if first.None? then None
      else
        var rest := ParseFile(first.value.1, how);
        if rest.None? then None else Some([first.value.0] + rest.value)
  }

  // ---------------------------------------------------------------------------
  // Reading back what was written

  lemma {:induction false} QuotedRoundTrip(s: string, d: char, tail: string, how: Reader)
    requires Delimiter(d)
    ensures ParseQuoted(DoubleQuotes(s) + "\"" + [d] + tail, how) == Some((Some(s), [d] + tail))
    decreases |s|
  {
    var text := DoubleQuotes(s) + "\"" + [d] + tail;
    if s == [] {
      assert text == "\"" + ([d] + tail);
      assert text[1..] == [d] + tail;
    } else {
      QuotedRoundTrip(s[1..], d, tail, how);
      var e := if s[0] == '"' then "\"\"" else [s[0]];
      var more := DoubleQuotes(s[1..]) + "\"" + [d] + tail;
      assert text == e + more && text[|e|..] == more;
      assert [s[0]] + s[1..] == s;
    }
  }

  lemma {:induction false} PlainEnds(s: string, d: char, tail: string, how: Reader)
    requires Delimiter(d) && !NeedsQuotes(s)
    ensures PlainLength(s + [d] + tail, how) == |s|
    decreases |s|
  {
    var text := s + [d] + tail;
    if s != [] {
      assert s[0] in s && forall c :: c in s[1..] ==> c in s;
      assert text[1..] == s[1..] + [d] + tail;
      PlainEnds(s[1..], d, tail, how);
    }
  }

  lemma {:induction false} NothingEscaped(s: string)
    requires '\\' !in s
    ensures Unescaped(s) == s
    decreases |s|
  {
    if s != [] {
      assert s[0] in s && forall c :: c in s[1..] ==> c in s;
      NothingEscaped(s[1..]);
    }
  }

  lemma PlainRoundTrip(s: string, d: char, tail: string, how: Reader)
    requires Delimiter(d) && !NeedsQuotes(s)
    ensures ParsePlain(s + [d] + tail, how)
            == Some((Plain(if how.crlf && d == '\n' then WithoutReturn(s) else s), [d] + tail))
  {
    var text := s + [d] + tail;
    PlainEnds(s, d, tail, how);
    assert text[|s|] == d && text[..|s|] == s && text[|s|..] == [d] + tail;
    NothingEscaped(s);
    NothingEscaped(WithoutReturn(s));
  }

  lemma QuotedFieldRoundTrip(s: string, d: char, tail: string, how: Reader)
    requires Delimiter(d)
    ensures ParseField("\"" + DoubleQuotes(s) + "\"" + [d] + tail, how) == Some((Some(s), [d] + tail))
  {
    var text := "\"" + DoubleQuotes(s) + "\"" + [d] + tail;
    assert text[1..] == DoubleQuotes(s) + "\"" + [d] + tail;
    QuotedRoundTrip(s, d, tail, how);
  }

  /** What a field in front of a delimiter is read back as. Only an unquoted one at the end of a line
      can change: it loses a carriage return to a line break of two characters. */
  function FieldReadAs(v: Option<string>, d: char, how: Reader): Option<string> {
    if how.crlf && d == '\n' && v.Some? && v.value != [] && !NeedsQuotes(v.value) then Plain(WithoutReturn(v.value)) else v
  }

  /** A field is read back so, NULL as NULL and the empty string as the empty string. */
  lemma FieldRoundTrip(v: Option<string>, d: char, tail: string, how: Reader)
    requires Delimiter(d)
    ensures ParseField(EscapeField(v) + [d] + tail, how) == Some((FieldReadAs(v, d, how), [d] + tail))
  {
    if v.None? {
      PlainRoundTrip([], d, tail, how);
    } else if v.value == [] || NeedsQuotes(v.value) {
      assert EscapeField(v) == "\"" + DoubleQuotes(v.value) + "\"";
      QuotedFieldRoundTrip(v.value, d, tail, how);
    } else {
      PlainRoundTrip(v.value, d, tail, how);
      assert (v.value + [d] + tail)[0] == v.value[0];
    }
  }

  /** A value is put in quotes exactly if it is empty or holds a quote, a comma, a newline or a backslash. */
  lemma QuotedIff(s: string)
    ensures EscapeField(Some(s)) != []
    ensures EscapeField(Some(s))[0] == '"' <==>
            s == [] || exists i :: 0 <= i < |s| && (s[i] == '"' || s[i] == ',' || s[i] == '\n' || s[i] == '\\')
    ensures EscapeField(Some(s))[0] != '"' ==> EscapeField(Some(s)) == s
  {
  }

  /** What a row is read back as: a row without fields cannot be told from a single NULL. */
  function ReadAs(row: Row, how: Reader): Row {
    if row == [] then [None]
    else row[..|row| - 1] + [FieldReadAs(row[|row| - 1], '\n', how)]
  }

  /** The row ends in an unquoted carriage return. */
  predicate BareReturn(row: Row) {
    row != [] &&
    var v := row[|row| - 1];
    v.Some? && v.value != [] && !NeedsQuotes(v.value) && v.value[|v.value| - 1] == '\r'
  }

  lemma LastField(v: Option<string>, tail: string, how: Reader)
    ensures ParseRow(EscapeField(v) + ['\n'] + tail, how) == Some(([FieldReadAs(v, '\n', how)], tail))
  {
    FieldRoundTrip(v, '\n', tail, how);
    assert (['\n'] + tail)[1..] == tail;
  }

  lemma FirstField(v: Option<string>, more: string, rest: Row, tail: string, how: Reader)
    requires ParseRow(more, how) == Some((rest, tail))
    ensures ParseRow(EscapeField(v) + [','] + more, how) == Some(([v] + rest, tail))
  {
    FieldRoundTrip(v, ',', more, how);
    assert ([','] + more)[1..] == more;
  }

  lemma RowTextLast(row: Row, v: Option<string>, tail: string)
    requires |row| <= 1 && v == if row == [] then None else row[0]
    ensures RowText(row) + tail == EscapeField(v) + ['\n'] + tail
  {
  }

  lemma RowTextFirst(row: Row, tail: string)
    requires |row| > 1
    ensures RowText(row) + tail == EscapeField(row[0]) + [','] + (RowText(row[1..]) + tail)
  {
    var first, more := EscapeField(row[0]), JoinFields(row[1..]);
    assert RowText(row) == first + "," + more + "\n";
  }

  lemma ReadAsFirst(row: Row, how: Reader)
    requires |row| > 1
    ensures ReadAs(row, how) == [row[0]] + ReadAs(row[1..], how)
  {
    var rest := row[1..];
    assert row == [row[0]] + rest;
    assert row[..|row| - 1] == [row[0]] + rest[..|rest| - 1];
  }

  lemma {:induction false} RowRoundTrip(row: Row, tail: string, how: Reader)
    ensures ParseRow(RowText(row) + tail, how) == Some((ReadAs(row, how), tail))
    decreases |row|
  {
    if |row| <= 1 {
      var v := if row == [] then None else row[0];
      LastField(v, tail, how);
      RowTextLast(row, v, tail);
      assert ReadAs(row, how) == [FieldReadAs(v, '\n', how)];
    } else {
      RowRoundTrip(row[1..], tail, how);
      FirstField(row[0], RowText(row[1..]) + tail, ReadAs(row[1..], how), tail, how);
      RowTextFirst(row, tail);
      ReadAsFirst(row, how);
    }
  }

  function AllReadAs(rows: seq<Row>, how: Reader): (r: seq<Row>)
    ensures |r| == |rows| && forall i :: 0 <= i < |rows| ==> r[i] == ReadAs(rows[i], how)
  {
    seq(|rows|, i requires 0 <= i < |rows| => ReadAs(rows[i], how))
  }

  lemma TextsFirst(rows: seq<Row>, how: Reader)
    requires rows != []
    ensures Concat(Texts(rows)) == RowText(rows[0]) + Concat(Texts(rows[1..]))
    ensures AllReadAs(rows, how) == [ReadAs(rows[0], how)] + AllReadAs(rows[1..], how)
  {
    assert Texts(rows)[1..] == Texts(rows[1..]);
  }

  lemma ParseFileFirst(text: string, row: Row, tail: string, rest: seq<Row>, how: Reader)
    requires text != [] && ParseRow(text, how) == Some((row, tail)) && ParseFile(tail, how) == Some(rest)
    ensures ParseFile(text, how) == Some([row] + rest)
  {
  }

  lemma {:induction false} FileRoundTrip(rows: seq<Row>, how: Reader)
    ensures ParseFile(Concat(Texts(rows)), how) == Some(AllReadAs(rows, how))
    decreases |rows|
  {
    if rows != [] {
      var tail := Concat(Texts(rows[1..]));
      TextsFirst(rows, how);
      RowRoundTrip(rows[0], tail, how);
      FileRoundTrip(rows[1..], how);
      ParseFileFirst(RowText(rows[0]) + tail, ReadAs(rows[0], how), tail, AllReadAs(rows[1..], how), how);
    }
  }

  /** The rows a reader cannot get wrong. */
  predicate Readable(rows: seq<Row>, how: Reader) {
    forall i :: 0 <= i < |rows| ==> rows[i] != [] && !(how.crlf && BareReturn(rows[i]))
  }

  lemma RowReadAsIff(row: Row, how: Reader)
    ensures ReadAs(row, how) == row <==> row != [] && !(how.crlf && BareReturn(row))
  {
    if row != [] {
      var v := row[|row| - 1];
      assert row == row[..|row| - 1] + [v];
      assert ReadAs(row, how)[|row| - 1] == FieldReadAs(v, '\n', how);
    }
  }

  lemma ReadAsIff(rows: seq<Row>, how: Reader)
    ensures AllReadAs(rows, how) == rows <==> Readable(rows, how)
  {
    forall i | 0 <= i < |rows|
      ensures ReadAs(rows[i], how) == rows[i] <==> rows[i] != [] && !(how.crlf && BareReturn(rows[i]))
    {
      RowReadAsIff(rows[i], how);
    }
    if AllReadAs(rows, how) == rows {
      assert forall i :: 0 <= i < |rows| ==> AllReadAs(rows, how)[i] == ReadAs(rows[i], how);
    }
  }

  /** A file gives back exactly its rows, if and only if none of them is without fields and, for a
      reader of two-character line breaks, none ends in an unquoted carriage return. */
  lemma ReadBackIffReadable(rows: seq<Row>, how: Reader)
    ensures ParseFile(Concat(Texts(rows)), how) == Some(rows) <==> Readable(rows, how)
  {
    FileRoundTrip(rows, how);
    ReadAsIff(rows, how);
  }

  // ---------------------------------------------------------------------------
  // Gathering rows into files

  /** A file is named after the number of rows uploaded so far, itself included. */
  datatype File = File(name: nat, content: string)

  /** The row after the last one in the first i files. */
  function Start(files: seq<File>, i: nat): nat
    requires i <= |files|
  {
    if i == 0 then 0 else files[i - 1].name
  }

  /** File i holds the rows from where the one before it stopped: no row is split, and the buffer
      size is reached by the last row of the file and not before. */
  predicate GoodFile(texts: seq<string>, size: int, files: seq<File>, i: nat)
    requires i < |files|
  {
    var start, end := Start(files, i), files[i].name;
    && start < end <= |texts|
    && files[i].content == Concat(texts[start..end])
    && (end == start + 1 || |Concat(texts[start..end - 1])| < size)
    && (end == |texts| || |files[i].content| >= size)
  }

  predicate Batched(texts: seq<string>, size: int, files: seq<File>) {
    && (forall i :: 0 <= i < |files| ==> GoodFile(texts, size, files, i))
    && Start(files, |files|) == |texts|
  }

  lemma {:induction false} ConcatSnoc(texts: seq<string>, x: string)
    ensures Concat(texts + [x]) == Concat(texts) + x
    decreases |texts|
  {
    if texts == [] {
      assert texts + [x] == [x] && [x][1..] == [];
    } else {
      assert (texts + [x])[1..] == texts[1..] + [x];
      ConcatSnoc(texts[1..], x);
    }
  }

  /** The batching loops of `BindUploadAgent.upload`. */
  method Upload(texts: seq<string>, bufferSize: int) returns (files: seq<File>)
    ensures Batched(texts, bufferSize, files)
  {
    files := [];
    var rowIdx := 0;
    while rowIdx < |texts|
      invariant rowIdx == Start(files, |files|)
      invariant rowIdx <= |texts|
      invariant forall i :: 0 <= i < |files| ==> GoodFile(texts, bufferSize, files, i)
    {
      var f, next := FillFile(texts, bufferSize, rowIdx);
      ghost var before := files;
      files := files + [File(next, f)];
      forall i | 0 <= i < |files| ensures GoodFile(texts, bufferSize, files, i) {
        if i < |before| {
          assert GoodFile(texts, bufferSize, before, i);
        }
      }
      rowIdx := next;
    }
  }

  /** The inner loop: at least one row, then more until the buffer size is reached. */
  method FillFile(texts: seq<string>, bufferSize: int, start: nat) returns (f: string, rowIdx: nat)
    requires start < |texts|
    ensures start < rowIdx <= |texts| && f == Concat(texts[start..rowIdx])
    ensures rowIdx == start + 1 || |Concat(texts[start..rowIdx - 1])| < bufferSize
    ensures rowIdx == |texts| || |f| >= bufferSize
  {
    f, rowIdx := [], start;
    var size := 0;
    while true
      invariant start <= rowIdx < |texts| && f == Concat(texts[start..rowIdx]) && size == |f|
      invariant rowIdx == start || size < bufferSize
      decreases |texts| - rowIdx
    {
      ConcatSnoc(texts[start..rowIdx], texts[rowIdx]);
      assert texts[start..rowIdx] + [texts[rowIdx]] == texts[start..rowIdx + 1];
      f := f + texts[rowIdx];
      size := size + |texts[rowIdx]|;
      rowIdx := rowIdx + 1;
      if rowIdx >= |texts| || size >= bufferSize {
        break;
      }
    }
  }

  function ReadFiles(files: seq<File>, how: Reader): Option<seq<Row>> {
    if files == [] then Some([])
    else
      var first, rest := ReadFiles(files[..|files| - 1], how), ParseFile(files[|files| - 1].content, how);
      if first.None? || rest.None? then None else Some(first.value + rest.value)
  }

  lemma OneFileReadsBack(rows: seq<Row>, start: nat, end: nat, how: Reader)
    requires start <= end <= |rows|
    ensures ParseFile(Concat(Texts(rows)[start..end]), how) == Some(AllReadAs(rows, how)[start..end])
  {
    TextsSlice(rows, start, end);
    FileRoundTrip(rows[start..end], how);
    ReadAsSlice(rows, start, end, how);
  }

  lemma ReadAsSlice(rows: seq<Row>, start: nat, end: nat, how: Reader)
    requires start <= end <= |rows|
    ensures AllReadAs(rows, how)[start..end] == AllReadAs(rows[start..end], how)
  {
    var a, b := AllReadAs(rows, how)[start..end], AllReadAs(rows[start..end], how);
    forall i | 0 <= i < end - start ensures a[i] == b[i] {
      assert rows[start..end][i] == rows[start + i];
    }
  }

  lemma TextsSlice(rows: seq<Row>, start: nat, end: nat)
    requires start <= end <= |rows|
    ensures Texts(rows)[start..end] == Texts(rows[start..end])
  {
    var a, b := Texts(rows)[start..end], Texts(rows[start..end]);
    forall i | 0 <= i < end - start ensures a[i] == b[i] {
      assert rows[start..end][i] == rows[start + i];
    }
  }

  lemma {:induction false} PrefixReadsBack(rows: seq<Row>, size: int, files: seq<File>, n: nat, how: Reader)
    requires n <= |files| && forall i :: 0 <= i < n ==> GoodFile(Texts(rows), size, files, i)
    ensures Start(files, n) <= |rows| && ReadFiles(files[..n], how) == Some(AllReadAs(rows, how)[..Start(files, n)])
    decreases n
  {
    if n == 0 {
      assert files[..0] == [] && AllReadAs(rows, how)[..0] == [];
    } else {
      PrefixReadsBack(rows, size, files, n - 1, how);
      var start, end := Start(files, n - 1), files[n - 1].name;
      assert GoodFile(Texts(rows), size, files, n - 1);
      OneFileReadsBack(rows, start, end, how);
      NextFileReadsBack(AllReadAs(rows, how), files, n, start, end, how);
    }
  }

  lemma NextFileReadsBack(rows: seq<Row>, files: seq<File>, n: nat, start: nat, end: nat, how: Reader)
    requires 0 < n <= |files| && start <= end <= |rows|
    requires ReadFiles(files[..n - 1], how) == Some(rows[..start])
    requires ParseFile(files[n - 1].content, how) == Some(rows[start..end])
    ensures ReadFiles(files[..n], how) == Some(rows[..end])
  {
    assert files[..n] == files[..n - 1] + [files[n - 1]];
    assert rows[..end] == rows[..start] + rows[start..end];
    ReadFilesSnoc(files[..n - 1], files[n - 1], rows[..start], rows[start..end], how);
  }

  lemma ReadFilesSnoc(files: seq<File>, f: File, a: seq<Row>, b: seq<Row>, how: Reader)
    requires ReadFiles(files, how) == Some(a) && ParseFile(f.content, how) == Some(b)
    ensures ReadFiles(files + [f], how) == Some(a + b)
  {
    assert (files + [f])[..|files|] == files;
  }

  lemma AllFilesReadBack(rows: seq<Row>, size: int, files: seq<File>, how: Reader)
    requires Batched(Texts(rows), size, files)
    ensures ReadFiles(files, how) == Some(AllReadAs(rows, how))
  {
    PrefixReadsBack(rows, size, files, |files|, how);
    assert files[..|files|] == files;
    assert AllReadAs(rows, how)[..|rows|] == AllReadAs(rows, how);
  }

  /** Reading the uploaded files in order gives back every row as a reader sees it, so exactly the
      rows if and only if they are readable; and no two files share a name. */
  lemma UploadReadsBack(rows: seq<Row>, size: int, files: seq<File>, how: Reader)
    requires Batched(Texts(rows), size, files)
    ensures ReadFiles(files, how) == Some(AllReadAs(rows, how))
    ensures ReadFiles(files, how) == Some(rows) <==> Readable(rows, how)
    ensures forall i, j :: 0 <= i < j < |files| ==> files[i].name < files[j].name
  {
    AllFilesReadBack(rows, size, files, how);
    ReadAsIff(rows, how);
    AllNamesIncrease(Texts(rows), size, files);
  }

  lemma AllNamesIncrease(texts: seq<string>, size: int, files: seq<File>)
    requires Batched(texts, size, files)
    ensures forall i, j :: 0 <= i < j < |files| ==> files[i].name < files[j].name
  {
    forall i, j | 0 <= i < j < |files| ensures files[i].name < files[j].name {
      NamesIncrease(texts, size, files, i, j);
    }
  }

  lemma {:induction false} NamesIncrease(texts: seq<string>, size: int, files: seq<File>, i: nat, j: nat)
    requires Batched(texts, size, files) && i < j < |files|
    ensures files[i].name < files[j].name
    decreases j
  {
    assert GoodFile(texts, size, files, j);
    if i < j - 1 {
      NamesIncrease(texts, size, files, i, j - 1);
    }
  }

  /** From bound rows to files and back. */
  method BulkBind(rows: seq<Row>, bufferSize: int) returns (files: seq<File>)
    ensures Batched(Texts(rows), bufferSize, files)
    ensures forall how :: ReadFiles(files, how) == Some(rows) <==> Readable(rows, how)
  {
    var texts := WriteRows(rows);
    files := Upload(texts, bufferSize);
    forall how ensures ReadFiles(files, how) == Some(rows) <==> Readable(rows, how) {
      UploadReadsBack(rows, bufferSize, files, how);
    }
  }
}
