/**
  The scanner of `pg_dump` text dumps (`parse_copy_data`): it finds the
  `COPY public.<table> (<columns>) FROM stdin;` header of one table, turns
  each following line into a column-to-value record (tab-separated fields,
  `\N` for NULL) and stops at the first `\.` line inside the block.
 */
module CopyScanner {
  import opened Wrappers
  import opened Text

  /** One line of the dump as the file iterator yields it, without its line terminator. */
  type Line = s: string | '\n' !in s

  /** A data record: column name to field text, `None` for the NULL marker. */
  type Row = map<string, Option<string>>

  const NullMarker: string := "\\N"
  const Terminator: string := "\\."
  const HeaderTail: string := "FROM stdin;"

  function HeaderPrefix(table: string): string {
    "COPY public." + table
  }

  // ---------------------------------------------------------------------
  // The block header
  // ---------------------------------------------------------------------

  /** The first index at or after `i` that does not hold whitespace. */
  function SkipSpaces(s: string, i: nat): (j: nat)
    requires i <= |s|
    ensures i <= j <= |s|
    decreases |s| - i
  {
    if i < |s| && IsSpace(s[i]) then SkipSpaces(s, i + 1) else i
  }

  /** `SkipSpaces` stops exactly at the end of the run of whitespace. */
  lemma {:induction false} SkipSpacesRun(s: string, i: nat)
    requires i <= |s|
    ensures forall k :: i <= k < SkipSpaces(s, i) ==> IsSpace(s[k])
    ensures SkipSpaces(s, i) < |s| ==> !IsSpace(s[SkipSpaces(s, i)])
    decreases |s| - i
  {
    if i < |s| && IsSpace(s[i]) {
      SkipSpacesRun(s, i + 1);
    }
  }

  /** A run of whitespace from `i` up to a non-space at `j` is skipped exactly. */
  lemma {:induction false} SkipSpacesTo(s: string, i: nat, j: nat)
    requires i <= j <= |s|
    requires forall k :: i <= k < j ==> IsSpace(s[k])
    requires j < |s| ==> !IsSpace(s[j])
    ensures SkipSpaces(s, i) == j
    decreases j - i
  {
    if i < j {
      SkipSpacesTo(s, i + 1, j);
    }
  }

  /** The start of the run of whitespace that ends at index `e`. */
  function SpacesBefore(s: string, e: nat): (w: nat)
    requires e <= |s|
    ensures w <= e
    decreases e
  {
    if e > 0 && IsSpace(s[e - 1]) then SpacesBefore(s, e - 1) else e
  }

  /** A run of whitespace from a non-space before `w` up to `e` is found exactly. */
  lemma {:induction false} SpacesBeforeFrom(s: string, e: nat, w: nat)
    requires w <= e <= |s|
    requires forall k :: w <= k < e ==> IsSpace(s[k])
    requires w > 0 ==> !IsSpace(s[w - 1])
    ensures SpacesBefore(s, e) == w
    decreases e - w
  {
    if w < e {
      SpacesBeforeFrom(s, e - 1, w);
    }
  }

  /** `SpacesBefore` stops exactly at the start of the run of whitespace. */
  lemma {:induction false} SpacesBeforeRun(s: string, e: nat)
    requires e <= |s|
    ensures forall k :: SpacesBefore(s, e) <= k < e ==> IsSpace(s[k])
    ensures SpacesBefore(s, e) > 0 ==> !IsSpace(s[SpacesBefore(s, e) - 1])
    decreases e
  {
    if e > 0 && IsSpace(s[e - 1]) {
      SpacesBeforeRun(s, e - 1);
    }
  }

  /** The column list of a header: comma-separated, each name stripped of spaces and `"`. */
  function ParseColumns(group: string): (columns: seq<string>)
    ensures |columns| >= 1
  {
    var parts := Split(group, ',');
    seq(|parts|, i requires 0 <= i < |parts| => Strip(parts[i], IsNameQuote))
  }

  predicate IsNameQuote(c: char) {
    c == ' ' || c == '"'
  }

  /**
    The match of `^COPY public\.<table>\s+\((.*?)\)\s+FROM stdin;$` against
    one line, with the table name taken literally: the parsed column list of
    the parenthesised group, or None when the line is not such a header.
   */
  function MatchHeader(line: string, table: string): Option<seq<string>> {
    var p := HeaderPrefix(table);
    if |line| < |p| || line[..|p|] != p then None
    else
      var b := SkipSpaces(line, |p|);
      var e := |line| - |HeaderTail|;
      if b == |p| || b == |line| || line[b] != '(' || e < 0 || line[e..] != HeaderTail then None
      else
        var w := SpacesBefore(line, e);
        if w == e || w < b + 2 || line[w - 1] != ')' then None
        else Some(ParseColumns(line[b + 1 .. w - 1]))
  }

  /**
    A line with the prefix, a run of whitespace up to `(` at `b`, and `)` at
    `w - 1` followed by a run of whitespace up to the tail, is a header whose
    columns come from the text between the parentheses.
   */
  lemma HeaderAt(line: string, table: string, b: nat, w: nat)
    requires |HeaderPrefix(table)| < b && b + 2 <= w < |line| - |HeaderTail|
    requires line[..|HeaderPrefix(table)|] == HeaderPrefix(table)
    requires forall k :: |HeaderPrefix(table)| <= k < b ==> IsSpace(line[k])
    requires line[b] == '(' && line[w - 1] == ')'
    requires forall k :: w <= k < |line| - |HeaderTail| ==> IsSpace(line[k])
    requires line[|line| - |HeaderTail|..] == HeaderTail
    ensures MatchHeader(line, table) == Some(ParseColumns(line[b + 1 .. w - 1]))
  {
    SkipSpacesTo(line, |HeaderPrefix(table)|, b);
    SpacesBeforeFrom(line, |line| - |HeaderTail|, w);
  }

  /**
    Every line of the form `COPY public.<table>` + spaces + `(` + group + `)`
    + spaces + `FROM stdin;` is a header, and its columns come from that group.
   */
  lemma HeaderComplete(table: string, w1: string, group: string, w2: string)
    requires |w1| > 0 && AllSpace(w1)
    requires |w2| > 0 && AllSpace(w2)
    requires '\n' !in group
    ensures MatchHeader(HeaderPrefix(table) + w1 + "(" + group + ")" + w2 + HeaderTail, table)
            == Some(ParseColumns(group))
  {
    var p := HeaderPrefix(table);
    var upToParen := p + w1 + "(";
    var closed := upToParen + group + ")";
    var body := closed + w2;
    var line := body + HeaderTail;
    var b, w := |p| + |w1|, |closed|;
    assert line[..|p|] == p by {
      assert line[..|p|] == upToParen[..|p|];
    }
    assert forall k :: |p| <= k < b ==> line[k] == w1[k - |p|];
    assert line[b] == '(' by {
      assert line[b] == upToParen[b];
    }
    assert line[w - 1] == ')' by {
      assert line[w - 1] == closed[w - 1];
    }
    assert forall k :: w <= k < |body| ==> line[k] == w2[k - w];
    assert line[|body|..] == HeaderTail;
    assert line[b + 1 .. w - 1] == group by {
      assert line[b + 1 .. w - 1] == closed[b + 1 .. w - 1];
    }
    HeaderAt(line, table, b, w);
  }

  /** A line whose seven consecutive slices are the pieces of a header is their concatenation. */
  lemma Rebuild(line: string, p: string, w1: string, group: string, w2: string, b: nat, c: nat, d: nat)
    requires |p| <= b < c < d <= |line|
    requires line[..|p|] == p && line[|p|..b] == w1 && line[b] == '(' && line[b + 1..c] == group
    requires line[c] == ')' && line[c + 1..d] == w2 && line[d..] == HeaderTail
    ensures line == p + w1 + "(" + group + ")" + w2 + HeaderTail
  {
    assert line[b..b + 1] == "(" && line[c..c + 1] == ")";
    assert line == line[..|p|] + line[|p|..b] + line[b..b + 1] + line[b + 1..c]
                   + line[c..c + 1] + line[c + 1..d] + line[d..];
  }

  /** Where the parts of an accepted header line lie: the converse of `HeaderAt`. */
  lemma HeaderPositions(line: string, table: string) returns (b: nat, w: nat)
    requires MatchHeader(line, table).Some?
    ensures |HeaderPrefix(table)| < b && b + 2 <= w < |line| - |HeaderTail|
    ensures line[..|HeaderPrefix(table)|] == HeaderPrefix(table)
    ensures forall k :: |HeaderPrefix(table)| <= k < b ==> IsSpace(line[k])
    ensures line[b] == '(' && line[w - 1] == ')'
    ensures forall k :: w <= k < |line| - |HeaderTail| ==> IsSpace(line[k])
    ensures line[|line| - |HeaderTail|..] == HeaderTail
    ensures MatchHeader(line, table) == Some(ParseColumns(line[b + 1 .. w - 1]))
  {
    var p := HeaderPrefix(table);
    b := SkipSpaces(line, |p|);
    w := SpacesBefore(line, |line| - |HeaderTail|);
    SkipSpacesRun(line, |p|);
    SpacesBeforeRun(line, |line| - |HeaderTail|);
  }

  /**
    Conversely, a line accepted as a header has exactly that form: the
    returned pieces rebuild the line, and its columns come from `group`.
   */
  lemma HeaderSound(line: string, table: string) returns (w1: string, group: string, w2: string)
    requires MatchHeader(line, table).Some?
    ensures |w1| > 0 && AllSpace(w1) && |w2| > 0 && AllSpace(w2)
    ensures line == HeaderPrefix(table) + w1 + "(" + group + ")" + w2 + HeaderTail
    ensures MatchHeader(line, table) == Some(ParseColumns(group))
  {
    var p := HeaderPrefix(table);
    var e := |line| - |HeaderTail|;
    var b, w := HeaderPositions(line, table);
    w1, group, w2 := line[|p|..b], line[b + 1 .. w - 1], line[w..e];
    assert forall k :: 0 <= k < |w1| ==> w1[k] == line[|p| + k];
    assert forall k :: 0 <= k < |w2| ==> w2[k] == line[w + k];
    Rebuild(line, p, w1, group, w2, b, w - 1, e);
  }

  predicate IsIdentifier(name: string) {
    forall i :: 0 <= i < |name| ==> IsWord(name[i])
  }

  /** A header line opens a block for one table name only (table names being identifiers). */
  lemma HeaderNamesOneTable(line: string, t1: string, t2: string)
    requires IsIdentifier(t1) && IsIdentifier(t2) && t1 != t2
    requires MatchHeader(line, t1).Some?
    ensures MatchHeader(line, t2).None?
  {
    var p1, p2 := HeaderPrefix(t1), HeaderPrefix(t2);
    SkipSpacesRun(line, |p1|);
    assert line[..|p1|] == p1 && IsSpace(line[|p1|]);
    if |t1| < |t2| {
      // the first character after t1 would have to be part of t2
      assert p2[|p1|] == t2[|t1|];
      if |line| >= |p2| {
        assert line[..|p2|][|p1|] != p2[|p1|];
      }
    } else if |t2| < |t1| {
      // the character after t2 is part of t1, so no whitespace follows t2
      assert line[|p2|] == p1[|p2|] == t1[|t2|];
      if |line| >= |p2| && line[..|p2|] == p2 {
        assert SkipSpaces(line, |p2|) == |p2|;
      }
    } else {
      var k :| 0 <= k < |t1| && t1[k] != t2[k];
      assert p1[12 + k] == t1[k] && p2[12 + k] == t2[k];
      assert line[..|p2|][12 + k] != p2[12 + k];
    }
  }

  // ---------------------------------------------------------------------
  // The block terminator and the data lines
  // ---------------------------------------------------------------------

  /** `line.strip() == "\\."`. */
  predicate IsTerminator(line: string) {
    Strip(line, IsSpace) == Terminator
  }

  /** A terminator line is never taken for a header. */
  lemma TerminatorIsNotHeader(line: string, table: string)
    requires IsTerminator(line)
    ensures MatchHeader(line, table).None?
  {
    var t := TrimLeft(line, IsSpace);
    var r := TrimRight(t, IsSpace);
    TrimLeftRemovesPrefix(line, IsSpace);
    TrimRightRemovesSuffix(t, IsSpace);
    assert r[0] == '\\' && t[0] == r[0];
    assert line[0] == '\\' || IsSpace(line[0]) by {
      if |t| == |line| {
        assert t == line;
      }
    }
    assert HeaderPrefix(table)[0] == 'C';
  }

  /** One field of a data line: `\N` is NULL, anything else is kept verbatim. */
  function FieldValue(field: string): Option<string> {
    if field == NullMarker then None else Some(field)
  }

  /**
    The record built from a data line's fields: column `columns[i]` is bound
    for every position `i` that has a field, later positions overwriting
    earlier ones of the same name.
   */
  function Record(columns: seq<string>, fields: seq<string>): Row
    decreases |columns|
  {
    if columns == [] then map[]
    else
      var n := |columns| - 1;
      var r := Record(columns[..n], fields);
      if n < |fields| then r[columns[n] := FieldValue(fields[n])] else r
  }

  /** A column is a key of the record iff some position of it has a field. */
  lemma {:induction false} RecordKeys(columns: seq<string>, fields: seq<string>, c: string)
    ensures c in Record(columns, fields)
            <==> exists i :: 0 <= i < |columns| && i < |fields| && columns[i] == c
    decreases |columns|
  {
    if columns != [] {
      var n := |columns| - 1;
      RecordKeys(columns[..n], fields, c);
      if exists i :: 0 <= i < |columns| && i < |fields| && columns[i] == c {
        var i :| 0 <= i < |columns| && i < |fields| && columns[i] == c;
        if i < n {
          assert columns[..n][i] == c;
        }
      }
    }
  }

  /**
    The value of a column whose last field-carrying position is `i`: NULL iff
    that field is exactly `\N`, otherwise the untrimmed field text.
   */
  lemma {:induction false} RecordValue(columns: seq<string>, fields: seq<string>, i: nat)
    requires i < |columns| && i < |fields|
    requires forall j :: i < j < |columns| && j < |fields| ==> columns[j] != columns[i]
    ensures columns[i] in Record(columns, fields)
    ensures Record(columns, fields)[columns[i]]
            == if fields[i] == NullMarker then None else Some(fields[i])
    decreases |columns|
  {
    var n := |columns| - 1;
    if i < n {
      assert columns[..n][i] == columns[i];
      RecordValue(columns[..n], fields, i);
    }
  }

  /** The loop of `parse_copy_data` that fills one record, field by field. */
  method BuildRow(columns: seq<string>, values: seq<string>) returns (row: Row)
    ensures row == Record(columns, values)
  {
    row := map[];
    for i := 0 to |columns|
      invariant row == Record(columns[..i], values)
    {
      assert columns[..i + 1][..i] == columns[..i];
      if i < |values| {
        var val := values[i];
        if val == NullMarker {
          row := row[columns[i] := None];
        } else {
          row := row[columns[i] := Some(val)];
        }
      }
    }
    assert columns[..|columns|] == columns;
  }

  // ---------------------------------------------------------------------
  // The scan
  // ---------------------------------------------------------------------

  /**
    The state machine of `parse_copy_data` run over the remaining `lines`:
    whether a block is open, the last header's columns and the records so far.
   */
  function Scan(lines: seq<Line>, table: string, inBlock: bool,
                columns: Option<seq<string>>, data: seq<Row>): (seq<Row>, Option<seq<string>>)
    decreases |lines|
  {
    if lines == [] then (data, columns)
    else
      match MatchHeader(lines[0], table)
      case Some(cols) => Scan(lines[1..], table, true, Some(cols), data)
      case None =>
        if inBlock && IsTerminator(lines[0]) then (data, columns)
        else if inBlock && columns.Some? && |columns.value| > 0 then
          Scan(lines[1..], table, inBlock, columns,
               data + [Record(columns.value, Split(lines[0], '\t'))])
        else Scan(lines[1..], table, inBlock, columns, data)
  }

  /** What `parse_copy_data` returns: the records, and the columns only when there are records. */
  function CopyData(lines: seq<Line>, table: string): (seq<Row>, Option<seq<string>>) {
    var (data, columns) := Scan(lines, table, false, None, []);
    (data, if data != [] then columns else None)
  }

  /** `parse_copy_data` over the lines of a dump. */
  method ParseCopyData(lines: seq<Line>, table: string)
    returns (data: seq<Row>, columns: Option<seq<string>>)
    ensures (data, columns) == CopyData(lines, table)
  {
    data := [];
    var inCopyBlock := false;
    var cols: Option<seq<string>> := None;
    var i := 0;
    while i < |lines|
      invariant 0 <= i <= |lines|
      invariant Scan(lines[i..], table, inCopyBlock, cols, data) == Scan(lines, table, false, None, [])
    {
      var line := lines[i];
      assert lines[i..][0] == line && lines[i..][1..] == lines[i + 1..];
      var header := MatchHeader(line, table);
      if header.Some? {
        inCopyBlock := true;
        cols := header;
        i := i + 1;
        continue;
      }
      if inCopyBlock && IsTerminator(line) {
        assert (data, cols) == Scan(lines, table, false, None, []);
        inCopyBlock := false;
        break;
      }
      if inCopyBlock && cols.Some? && |cols.value| > 0 {
        var row := BuildRow(cols.value, Split(line, '\t'));
        data := data + [row];
      }
      i := i + 1;
    }
    columns := if data != [] then cols else None;
  }

  // ---------------------------------------------------------------------
  // What the scan yields
  // ---------------------------------------------------------------------

  /** The records of a block's data lines, in line order. */
  function Records(columns: seq<string>, body: seq<Line>): seq<Row> {
    seq(|body|, i requires 0 <= i < |body| => Record(columns, Split(body[i], '\t')))
  }

  predicate NoHeaderFor(lines: seq<Line>, table: string) {
    forall i :: 0 <= i < |lines| ==> MatchHeader(lines[i], table).None?
  }

  predicate IsDataLines(lines: seq<Line>, table: string) {
    forall i :: 0 <= i < |lines| ==> MatchHeader(lines[i], table).None? && !IsTerminator(lines[i])
  }

  /** Outside a block, a line that is not a header for the table is passed over. */
  lemma ScanStepOutside(lines: seq<Line>, table: string, columns: Option<seq<string>>, data: seq<Row>)
    requires lines != [] && MatchHeader(lines[0], table).None?
    ensures Scan(lines, table, false, columns, data) == Scan(lines[1..], table, false, columns, data)
  {
  }

  /** Inside a block, a data line adds its record. */
  lemma ScanStepData(lines: seq<Line>, table: string, columns: seq<string>, data: seq<Row>)
    requires lines != [] && MatchHeader(lines[0], table).None? && !IsTerminator(lines[0])
    requires |columns| > 0
    ensures Scan(lines, table, true, Some(columns), data)
            == Scan(lines[1..], table, true, Some(columns), data + [Record(columns, Split(lines[0], '\t'))])
  {
  }

  /** Outside a block, lines that are not headers for the table are passed over. */
  lemma {:induction false} ScanSkips(pre: seq<Line>, rest: seq<Line>, table: string,
                                     columns: Option<seq<string>>, data: seq<Row>)
    requires NoHeaderFor(pre, table)
    ensures Scan(pre + rest, table, false, columns, data) == Scan(rest, table, false, columns, data)
    decreases |pre|
  {
    if pre != [] {
      assert (pre + rest)[0] == pre[0] && (pre + rest)[1..] == pre[1..] + rest;
      ScanStepOutside(pre + rest, table, columns, data);
      ScanSkips(pre[1..], rest, table, columns, data);
    } else {
      assert pre + rest == rest;
    }
  }

  /** Inside a block, each data line adds its record, in order. */
  lemma {:induction false} ScanReadsBody(body: seq<Line>, rest: seq<Line>, table: string,
                                         columns: seq<string>, data: seq<Row>)
    requires |columns| > 0
    requires IsDataLines(body, table)
    ensures Scan(body + rest, table, true, Some(columns), data)
            == Scan(rest, table, true, Some(columns), data + Records(columns, body))
    decreases |body|
  {
    if body == [] {
      assert body + rest == rest;
      assert data + Records(columns, body) == data;
    } else {
      assert (body + rest)[0] == body[0] && (body + rest)[1..] == body[1..] + rest;
      var r := Record(columns, Split(body[0], '\t'));
      ScanStepData(body + rest, table, columns, data);
      ScanReadsBody(body[1..], rest, table, columns, data + [r]);
      RecordsFirst(columns, body);
      assert (data + [r]) + Records(columns, body[1..]) == data + ([r] + Records(columns, body[1..]));
    }
  }

  /** The records of a block start with the record of its first line. */
  lemma RecordsFirst(columns: seq<string>, body: seq<Line>)
    requires body != []
    ensures Records(columns, body) == [Record(columns, Split(body[0], '\t'))] + Records(columns, body[1..])
  {
  }

  /**
    The records of a dump: the first header for the table (after lines that
    are not headers for it), then its data lines, then either the end of the
    dump or a terminator followed by anything at all. The result holds one
    record per data line, in order; the header is not among them; whatever
    follows the terminator, later blocks included, is ignored; and the column
    list is returned exactly when there are records.
   */
  lemma CopyDataOfBlock(pre: seq<Line>, header: Line, body: seq<Line>, rest: seq<Line>,
                        table: string, columns: seq<string>)
    requires NoHeaderFor(pre, table)
    requires MatchHeader(header, table) == Some(columns)
    requires IsDataLines(body, table)
    requires rest == [] || IsTerminator(rest[0])
    ensures CopyData(pre + [header] + body + rest, table)
            == (Records(columns, body), if body == [] then None else Some(columns))
  {
    var lines := pre + [header] + body + rest;
    assert lines == pre + ([header] + (body + rest));
    ScanSkips(pre, [header] + (body + rest), table, None, []);
    assert ([header] + (body + rest))[1..] == body + rest;
    ScanReadsBody(body, rest, table, columns, []);
    assert [] + Records(columns, body) == Records(columns, body);
    if rest != [] {
      TerminatorIsNotHeader(rest[0], table);
    }
  }

  /**
    A second header inside an open block restarts the column list: the data
    lines after it are read with the new columns and appended to the same
    records, and the column list returned is the last one read.
   */
  lemma CopyDataHeaderInBlock(pre: seq<Line>, first: Line, body1: seq<Line>,
                              second: Line, body2: seq<Line>, rest: seq<Line>,
                              table: string, columns1: seq<string>, columns2: seq<string>)
    requires NoHeaderFor(pre, table)
    requires MatchHeader(first, table) == Some(columns1)
    requires IsDataLines(body1, table)
    requires MatchHeader(second, table) == Some(columns2)
    requires IsDataLines(body2, table)
    requires rest == [] || IsTerminator(rest[0])
    ensures CopyData(pre + [first] + body1 + [second] + body2 + rest, table)
            == (Records(columns1, body1) + Records(columns2, body2),
                if body1 == [] && body2 == [] then None else Some(columns2))
  {
    var after := [second] + (body2 + rest);
    var lines := pre + [first] + body1 + [second] + body2 + rest;
    assert lines == pre + ([first] + (body1 + after));
    ScanSkips(pre, [first] + (body1 + after), table, None, []);
    assert ([first] + (body1 + after))[1..] == body1 + after;
    ScanReadsBody(body1, after, table, columns1, []);
    var read1 := [] + Records(columns1, body1);
    assert after[1..] == body2 + rest;
    ScanReadsBody(body2, rest, table, columns2, read1);
    assert read1 == Records(columns1, body1);
    if rest != [] {
      TerminatorIsNotHeader(rest[0], table);
    }
    assert |Records(columns1, body1) + Records(columns2, body2)| == |body1| + |body2|;
  }

  /** Records are only ever added once a column list has been read. */
  lemma {:induction false} ScanKeepsColumns(lines: seq<Line>, table: string, inBlock: bool,
                                            columns: Option<seq<string>>, data: seq<Row>)
    requires data != [] ==> columns.Some?
    ensures Scan(lines, table, inBlock, columns, data).0 != [] ==>
              Scan(lines, table, inBlock, columns, data).1.Some?
    decreases |lines|
  {
    if lines != [] {
      match MatchHeader(lines[0], table)
      case Some(cols) =>
        ScanKeepsColumns(lines[1..], table, true, Some(cols), data);
      case None =>
        if inBlock && IsTerminator(lines[0]) {
        } else if inBlock && columns.Some? && |columns.value| > 0 {
          ScanKeepsColumns(lines[1..], table, inBlock, columns,
                           data + [Record(columns.value, Split(lines[0], '\t'))]);
        } else {
          ScanKeepsColumns(lines[1..], table, inBlock, columns, data);
        }
    }
  }

  /**
    The column list is returned exactly when records are: `None` for a dump
    without records, an empty block included, and a header's columns otherwise.
   */
  lemma CopyDataColumns(lines: seq<Line>, table: string)
    ensures CopyData(lines, table).1.None? <==> CopyData(lines, table).0 == []
  {
    ScanKeepsColumns(lines, table, false, None, []);
  }

  /** A dump without a header for the table yields no records and no column list. */
  lemma CopyDataWithoutHeader(lines: seq<Line>, table: string)
    requires NoHeaderFor(lines, table)
    ensures CopyData(lines, table) == ([], None)
  {
    ScanSkips(lines, [], table, None, []);
    assert lines + [] == lines;
  }

  // ---------------------------------------------------------------------
  // Dumps built from tables: the scan reads back what was written
  // ---------------------------------------------------------------------

  /** The column list as a header writes it: `c1, c2, ...`. */
  function ColumnListText(columns: seq<string>): string
    requires |columns| >= 1
    decreases |columns|
  {
    if |columns| == 1 then columns[0] else columns[0] + ", " + ColumnListText(columns[1..])
  }

  predicate IsPlainColumnName(c: string) {
    && ',' !in c && '\n' !in c
    && (c != [] ==> !IsNameQuote(c[0]) && !IsNameQuote(c[|c| - 1]))
  }

  lemma {:induction false} ParseColumnListText(columns: seq<string>)
    requires |columns| >= 1
    requires forall i :: 0 <= i < |columns| ==> IsPlainColumnName(columns[i])
    ensures ParseColumns(ColumnListText(columns)) == columns
    decreases |columns|
  {
    var c := columns[0];
    PlainNameStrips(c);
    if |columns| == 1 {
      SplitGlue(c, "", ',');
      assert c + "" == c;
    } else {
      ParseColumnListText(columns[1..]);
      ParseColumnsStep(c, ColumnListText(columns[1..]));
    }
  }

  /** A list of plain column names is written on one line. */
  lemma {:induction false} ColumnListTextOneLine(columns: seq<string>)
    requires |columns| >= 1
    requires forall i :: 0 <= i < |columns| ==> IsPlainColumnName(columns[i])
    ensures '\n' !in ColumnListText(columns)
    decreases |columns|
  {
    if |columns| > 1 {
      ColumnListTextOneLine(columns[1..]);
    }
  }

  /** The columns of `c, rest` are `c` followed by the columns of `rest`. */
  lemma ParseColumnsStep(c: string, rest: string)
    requires IsPlainColumnName(c)
    ensures ParseColumns(c + ", " + rest) == [c] + ParseColumns(rest)
  {
    PlainNameStrips(c);
    var tailParts := Split(rest, ',');
    SplitListStep(c, rest);
    var parts := Split(c + ", " + rest, ',');
    LeadingSpaceStrips(tailParts[0]);
    var parsed := ParseColumns(c + ", " + rest);
    var tailParsed := ParseColumns(rest);
    forall i | 0 <= i < |parsed|
      ensures parsed[i] == ([c] + tailParsed)[i]
    {
      if i > 1 {
        assert parts[i] == tailParts[i - 1];
      }
    }
  }

  /** A plain column name is its own stripped form. */
  lemma PlainNameStrips(c: string)
    requires IsPlainColumnName(c)
    ensures Strip(c, IsNameQuote) == c
  {
    if c != [] {
      StripKeeps(c, IsNameQuote);
    }
  }

  /** A space in front of a name is stripped away. */
  lemma LeadingSpaceStrips(x: string)
    ensures Strip(" " + x, IsNameQuote) == Strip(x, IsNameQuote)
  {
    assert (" " + x)[1..] == x;
    assert TrimLeft(" " + x, IsNameQuote) == TrimLeft(x, IsNameQuote);
  }

  /** Splitting `c, rest` yields `c` and then the pieces of ` rest`. */
  lemma SplitListStep(c: string, rest: string)
    requires ',' !in c
    ensures var tail := Split(rest, ',');
            Split(c + ", " + rest, ',') == [c] + ([" " + tail[0]] + tail[1..])
  {
    var after := [','] + (" " + rest);
    assert c + ", " + rest == c + after;
    SplitGlue(c, after, ',');
    assert after[1..] == " " + rest;
    assert Split(after, ',') == [""] + Split(" " + rest, ',');
    SplitGlue(" ", rest, ',');
    assert c + "" == c;
  }

  /** The header line a dump writes for a table and its columns. */
  function HeaderLine(table: string, columns: seq<string>): string
    requires |columns| >= 1
  {
    HeaderPrefix(table) + " (" + ColumnListText(columns) + ") " + HeaderTail
  }

  lemma HeaderLineMatches(table: string, columns: seq<string>)
    requires |columns| >= 1
    requires forall i :: 0 <= i < |columns| ==> IsPlainColumnName(columns[i])
    ensures MatchHeader(HeaderLine(table, columns), table) == Some(columns)
  {
    ColumnListTextOneLine(columns);
    HeaderComplete(table, " ", ColumnListText(columns), " ");
    assert HeaderLine(table, columns)
           == HeaderPrefix(table) + " " + "(" + ColumnListText(columns) + ")" + " " + HeaderTail;
    ParseColumnListText(columns);
  }
}
