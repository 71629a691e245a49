/** The text level of `parse_mountinfo`: limits, `splitlines`, and the whole table printed and read back. */
module MountinfoText {
  import opened Outcome
  import opened Text
  import opened MountOracle
  import opened Mountinfo
  import opened MountinfoGrammar

  const MAX_BYTES := 1024 * 1024

  /** A carriage return and a newline after it end one line together. */
  function BreakSize(s: string): (n: nat)
    requires s != ""
    ensures 1 <= n <= |s|
  {
    if |s| > 1 && s[0] == '\r' && s[1] == '\n' then 2 else 1
  }

  /** `s.splitlines()`: a final break adds no empty line. */
  function SplitLines(s: string): (lines: seq<string>)
    ensures s != "" ==> lines != []
    decreases |s|
  {
    if s == "" then []
    else if IsBreak(s[0]) then [""] + SplitLines(s[BreakSize(s)..])
    else if |s| == 1 then [s]
    else
      var rest := SplitLines(s[1..]);
      [[s[0]] + rest[0]] + rest[1..]
  }

  predicate EndsLine(s: string) {
    s != "" && s[|s| - 1] == '\n'
  }

  /** The text is within the limits, ends its last line, and each line parses under its own id. */
  ghost predicate Accepted(text: string) {
    AcceptedBy(ParseLine, text)
  }

  ghost predicate AcceptedBy(parse: LineParser, text: string) {
    && Utf8Length(text) <= MAX_BYTES && EndsLine(text)
    && 1 <= |SplitLines(text)| <= MAX_RECORDS && Parses(parse, SplitLines(text))
  }

  /** `parse_mountinfo` of the decoded text: accepted exactly when it should be, with one record per line under its id. */
  method ParseMountinfo(text: string) returns (r: Result<map<nat, Mount>, Code>)
    ensures r.Ok? <==> Accepted(text)
    ensures r.Ok? ==> Tabulates(ParseLine, SplitLines(text), r.value)
    ensures r.Ok? <==> exists lines, ids :: GoodTable(text, lines, ids)
    ensures r.Ok? ==> TextReads(text, r.value)
  {
    AcceptedMeans(text);
    if Utf8Length(text) > MAX_BYTES {
      return Err(MountinfoLimit);
    }
    var lines := SplitLines(text);
    if !EndsLine(text) {
      return Err(MountinfoInvalid);
    }
    r := ParseTable(ParseLine, lines);
    if r.Ok? {
      TableOf(ParseLine, text, r.value);
    }
  }

  // What the table says, in terms of the grammar.

  /** The characters at which Python ends a line: line and page breaks, separators, and the next-line marks. */
  ghost predicate EndsAt(c: char) {
    || c == '\n' || c == '\r' || c == '\U{0B}' || c == '\U{0C}' || c == '\U{1C}' || c == '\U{1D}' || c == '\U{1E}'
    || c == '\U{85}' || c == '\U{2028}' || c == '\U{2029}'
  }

  /** The text is the lines, each ended by a break or by the end of the text; a carriage return takes its newline with it. */
  ghost predicate Broken(text: string, lines: seq<string>)
    decreases |text|
  {
    if text == "" then lines == []
    else
      && lines != [] && lines[0] <= text && (forall i :: 0 <= i < |lines[0]| ==> !EndsAt(text[i]))
      && var k := |lines[0]|;
         if k == |text| then lines == [text]
         else EndsAt(text[k]) && Broken(text[k + (if text[k] == '\r' && k + 1 < |text| && text[k + 1] == '\n' then 2 else 1)..], lines[1..])
  }

  /** Every line reads as one record under its own id, and there are no others. */
  ghost predicate TableReads(lines: seq<string>, records: map<nat, Mount>) {
    && |records| == |lines|
    && forall i :: 0 <= i < |lines| ==> exists id :: id in records && ReadsAs(lines[i], id, records[id])
  }

  ghost predicate TextReads(text: string, records: map<nat, Mount>) {
    exists lines :: Broken(text, lines) && TableReads(lines, records)
  }

  lemma TableOf(parse: LineParser, text: string, records: map<nat, Mount>)
    requires parse == ParseLine && Parses(parse, SplitLines(text)) && Tabulates(parse, SplitLines(text), records)
    ensures TextReads(text, records)
  {
    BrokenMeans(text, SplitLines(text));
    TableMeans(parse, SplitLines(text), records);
  }

  /**
    * Text of at most a mebibyte that ends in a newline, in one to 8192 lines, each of them a line of the
    * grammar under an id of its own.
    */
  ghost predicate GoodTable(text: string, lines: seq<string>, ids: seq<nat>) {
    && Octets(text) <= 1048576 && text != "" && text[|text| - 1] == '\n'
    && Broken(text, lines) && 1 <= |lines| <= 8192 && |ids| == |lines|
    && (forall i :: 0 <= i < |lines| ==> ReadsUnder(lines[i], ids[i]))
    && forall i, j :: 0 <= i < j < |ids| ==> ids[i] != ids[j]
  }

  ghost predicate ReadsUnder(line: string, id: nat) {
    exists m :: ReadsAs(line, id, m)
  }

  ghost predicate ReadsAs(line: string, id: nat, m: Mount) {
    exists d :: LineReads(line, d, id, m)
  }

  lemma BreaksMean(c: char)
    ensures IsBreak(c) <==> EndsAt(c)
  {
  }

  /** The first line goes up to the first break. */
  lemma {:induction false} FirstLine(text: string) returns (k: nat)
    requires text != ""
    ensures k <= |text| && SplitLines(text) != [] && SplitLines(text)[0] == text[..k] && Breakless(text[..k])
    ensures if k == |text| then SplitLines(text) == [text]
            else IsBreak(text[k]) && SplitLines(text)[1..] == SplitLines(text[k..][BreakSize(text[k..])..])
  {
    if IsBreak(text[0]) {
      k := 0;
    } else if |text| == 1 {
      k := 1;
    } else {
      var j := FirstLine(text[1..]);
      k := j + 1;
      OneLetterOn(text, j);
      SplitOneOn(text);
    }
  }

  lemma OneLetterOn(text: string, j: nat)
    requires text != "" && j < |text| && Breakless(text[1..][..j]) && !IsBreak(text[0])
    ensures text[..j + 1] == [text[0]] + text[1..][..j] && Breakless(text[..j + 1]) && text[1..][j..] == text[j + 1..]
    ensures j + 1 == |text| ==> text == [text[0]] + text[1..]
  {
    assert text[..j + 1] == [text[0]] + text[1..][..j];
  }

  lemma SplitOneOn(text: string)
    requires |text| > 1 && !IsBreak(text[0])
    ensures var rest := SplitLines(text[1..]);
            rest != [] && SplitLines(text)[0] == [text[0]] + rest[0] && SplitLines(text)[1..] == rest[1..]
  {
  }

  /** Where the first line ends, said by the break alone. */
  lemma FirstBreakIs(text: string, k: nat, n: nat)
    requires k <= |text| && n <= |text|
    requires (forall i :: 0 <= i < k ==> !EndsAt(text[i])) && (forall i :: 0 <= i < n ==> !EndsAt(text[i]))
    requires (k < |text| ==> EndsAt(text[k])) && (n < |text| ==> EndsAt(text[n]))
    ensures k == n
  {
  }

  lemma ClearMeans(text: string, k: nat)
    requires k <= |text|
    ensures Breakless(text[..k]) <==> forall i :: 0 <= i < k ==> !EndsAt(text[i])
  {
    forall i | 0 <= i < k
      ensures IsBreak(text[..k][i]) <==> EndsAt(text[i])
    {
      BreaksMean(text[i]);
    }
    if Breakless(text[..k]) {
      assert forall i :: 0 <= i < k ==> !IsBreak(text[..k][i]);
    }
  }

  lemma SizeMeans(text: string, k: nat)
    requires k < |text|
    ensures BreakSize(text[k..]) == if text[k] == '\r' && k + 1 < |text| && text[k + 1] == '\n' then 2 else 1
    ensures text[k..][BreakSize(text[k..])..] == text[k + BreakSize(text[k..])..]
  {
  }

  lemma {:induction false} BrokenMeans(text: string, lines: seq<string>)
    ensures SplitLines(text) == lines <==> Broken(text, lines)
    decreases |text|
  {
    if text != "" {
      var k := FirstLine(text);
      ClearMeans(text, k);
      if k < |text| {
        BreaksMean(text[k]);
        SizeMeans(text, k);
        if lines != [] {
          BrokenMeans(text[k + BreakSize(text[k..])..], lines[1..]);
        }
      }
      SameBroken(text, lines, k);
    }
  }

  /** With the first line settled, the rest decides. */
  lemma SameBroken(text: string, lines: seq<string>, k: nat)
    requires text != "" && k <= |text| && SplitLines(text) != [] && SplitLines(text)[0] == text[..k]
    requires (forall i :: 0 <= i < k ==> !EndsAt(text[i])) && (k < |text| ==> EndsAt(text[k]))
    requires if k == |text| then SplitLines(text) == [text]
             else SplitLines(text)[1..] == SplitLines(text[k + BreakSize(text[k..])..])
    requires k < |text| ==> BreakSize(text[k..]) == if text[k] == '\r' && k + 1 < |text| && text[k + 1] == '\n' then 2 else 1
    requires k < |text| && lines != [] ==>
               var rest := text[k + BreakSize(text[k..])..];
               SplitLines(rest) == lines[1..] <==> Broken(rest, lines[1..])
    ensures SplitLines(text) == lines <==> Broken(text, lines)
  {
    var split := SplitLines(text);
    assert text[..|text|] == text;
    if split == lines {
      assert Broken(text, lines);
    }
    if Broken(text, lines) {
      assert lines[0] == text[..|lines[0]|];
      FirstBreakIs(text, k, |lines[0]|);
      assert split == [split[0]] + split[1..] && lines == [lines[0]] + lines[1..];
    }
  }

  lemma LineIs(line: string, id: nat)
    ensures ReadsUnder(line, id) <==> ParseLine(line).Some? && ParseLine(line).value.0 == id
  {
    if m :| ReadsAs(line, id, m) {
      LineMeans(line, id, m);
    }
    if ParseLine(line).Some? && ParseLine(line).value.0 == id {
      var m := ParseLine(line).value.1;
      LineMeans(line, id, m);
      assert ReadsAs(line, id, m);
    }
  }

  /** The parser finds in a line the id that the grammar finds. */
  ghost predicate Follows(parse: LineParser) {
    forall line: string, id: nat {:trigger ReadsUnder(line, id)} :: ReadsUnder(line, id) <==> parse(line).Some? && parse(line).value.0 == id
  }

  ghost function IdsOf(parse: LineParser, lines: seq<string>): seq<nat>
    requires forall i :: 0 <= i < |lines| ==> parse(lines[i]).Some?
  {
    seq(|lines|, i requires 0 <= i < |lines| => parse(lines[i]).value.0)
  }

  lemma AcceptedIsGood(parse: LineParser, text: string)
    requires Follows(parse) && AcceptedBy(parse, text)
    ensures exists lines, ids :: GoodTable(text, lines, ids)
  {
    var lines := SplitLines(text);
    var ids := IdsOf(parse, lines);
    OctetsMean(text);
    BrokenMeans(text, lines);
    forall i | 0 <= i < |lines|
      ensures ReadsUnder(lines[i], ids[i])
    {
      assert parse(lines[i]).value.0 == ids[i];
    }
    assert GoodTable(text, lines, ids);
  }

  lemma GoodIsAccepted(parse: LineParser, text: string, lines: seq<string>, ids: seq<nat>)
    requires Follows(parse) && GoodTable(text, lines, ids)
    ensures AcceptedBy(parse, text)
  {
    OctetsMean(text);
    BrokenMeans(text, lines);
    forall i | 0 <= i < |lines|
      ensures parse(lines[i]).Some? && parse(lines[i]).value.0 == ids[i]
    {
      assert ReadsUnder(lines[i], ids[i]);
    }
    assert Parses(parse, lines);
  }

  lemma ParserFollows(parse: LineParser)
    requires parse == ParseLine
    ensures Follows(parse)
  {
    forall line: string, id: nat
      ensures ReadsUnder(line, id) <==> parse(line).Some? && parse(line).value.0 == id
    {
      LineIs(line, id);
    }
  }

  lemma AcceptedMeans(text: string)
    ensures Accepted(text) <==> exists lines, ids :: GoodTable(text, lines, ids)
  {
    ParserFollows(ParseLine);
    if Accepted(text) {
      AcceptedIsGood(ParseLine, text);
    }
    if lines, ids :| GoodTable(text, lines, ids) {
      GoodIsAccepted(ParseLine, text, lines, ids);
    }
  }

  lemma LineInTable(parse: LineParser, lines: seq<string>, records: map<nat, Mount>, i: nat) returns (id: nat)
    requires Parses(parse, lines) && Tabulates(parse, lines, records) && i < |lines|
    ensures id in records && parse(lines[i]) == Some((id, records[id]))
  {
    id := parse(lines[i]).value.0;
  }

  lemma TableMeans(parse: LineParser, lines: seq<string>, records: map<nat, Mount>)
    requires parse == ParseLine && Parses(parse, lines) && Tabulates(parse, lines, records)
    ensures TableReads(lines, records)
  {
    forall i | 0 <= i < |lines|
      ensures exists id :: id in records && ReadsAs(lines[i], id, records[id])
    {
      var id := LineInTable(parse, lines, records, i);
      LineMeans(lines[i], id, records[id]);
    }
  }

  // Splitting.

  lemma {:induction false} SplitAtBreak(a: string, s: string)
    requires Breakless(a) && s != "" && IsBreak(s[0])
    ensures SplitLines(a + s) == [a] + SplitLines(s[BreakSize(s)..])
    decreases |a|
  {
    if a == "" {
      assert a + s == s;
    } else {
      assert (a + s)[1..] == a[1..] + s;
      SplitAtBreak(a[1..], s);
      assert [a[0]] + a[1..] == a;
    }
  }

  /** A clean line and its newline. */
  lemma SplitLine(line: string, rest: string)
    requires Breakless(line)
    ensures SplitLines(line + ("\n" + rest)) == [line] + SplitLines(rest)
  {
    var s := "\n" + rest;
    SplitAtBreak(line, s);
    assert s[1..] == rest;
  }

  /** Each line with its newline. */
  function TextOf(lines: seq<string>): string {
    if lines == [] then "" else lines[0] + ("\n" + TextOf(lines[1..]))
  }

  lemma {:induction false} CleanTextSplits(lines: seq<string>)
    requires forall i :: 0 <= i < |lines| ==> Breakless(lines[i])
    ensures SplitLines(TextOf(lines)) == lines
  {
    if lines != [] {
      CleanTextSplits(lines[1..]);
      SplitLine(lines[0], TextOf(lines[1..]));
      assert lines == [lines[0]] + lines[1..];
    }
  }

  /** A line with a break of its own is cut there. */
  lemma {:induction false} DirtyLineIsCut(lines: seq<string>, j: nat, k: nat)
    requires j < |lines| && k < |lines[j]| && IsBreak(lines[j][k]) && Breakless(lines[j][..k])
    requires forall i :: 0 <= i < j ==> Breakless(lines[i])
    ensures j < |SplitLines(TextOf(lines))| && SplitLines(TextOf(lines))[j] == lines[j][..k]
  {
    if j == 0 {
      var a, s := lines[0][..k], lines[0][k..] + ("\n" + TextOf(lines[1..]));
      assert a + s == TextOf(lines) && s[0] == lines[0][k];
      SplitAtBreak(a, s);
    } else {
      DirtyLineIsCut(lines[1..], j - 1, k);
      SplitLine(lines[0], TextOf(lines[1..]));
    }
  }

  lemma {:induction false} TextEnds(lines: seq<string>)
    requires lines != []
    ensures EndsLine(TextOf(lines))
  {
    if |lines| > 1 {
      TextEnds(lines[1..]);
    } else {
      assert lines[1..] == [];
    }
  }

  // Which rows print without a break.

  /** Text whose only line breaks are newlines, which are escaped. */
  predicate OnlyNewlines(s: string) {
    forall i :: 0 <= i < |s| ==> IsBreak(s[i]) ==> s[i] == '\n'
  }

  lemma PieceBreaks(c: char)
    ensures Breakless(Piece(c)) <==> IsBreak(c) ==> c == '\n'
  {
    assert c == '\n' ==> Piece(c) == "\\012";
    assert |Piece(c)| == 1 ==> Piece(c)[0] == c;
  }

  lemma BreaklessSum(a: string, b: string)
    ensures Breakless(a + b) <==> Breakless(a) && Breakless(b)
  {
    if Breakless(a + b) {
      forall i | 0 <= i < |a|
        ensures !IsBreak(a[i])
      {
        assert (a + b)[i] == a[i];
      }
      forall i | 0 <= i < |b|
        ensures !IsBreak(b[i])
      {
        assert (a + b)[|a| + i] == b[i];
      }
    }
  }

  lemma {:induction false} EncodeBreaks(s: string)
    ensures Breakless(Encode(s)) <==> OnlyNewlines(s)
  {
    if s != "" {
      EncodeBreaks(s[1..]);
      PieceBreaks(s[0]);
      BreaklessSum(Piece(s[0]), Encode(s[1..]));
      OnlyNewlinesTail(s);
    }
  }

  lemma OnlyNewlinesTail(s: string)
    requires s != ""
    ensures OnlyNewlines(s) <==> (IsBreak(s[0]) ==> s[0] == '\n') && OnlyNewlines(s[1..])
  {
    if OnlyNewlines(s) {
      assert forall i :: 0 <= i < |s[1..]| ==> s[1..][i] == s[i + 1];
    } else if OnlyNewlines(s[1..]) {
      assert forall i :: 1 <= i < |s| ==> s[i] == s[1..][i - 1];
    }
  }

  lemma {:induction false} JoinBreaks(sep: char, parts: seq<string>)
    requires !IsBreak(sep)
    ensures Breakless(JoinWith(sep, parts)) <==> forall i :: 0 <= i < |parts| ==> Breakless(parts[i])
  {
    if |parts| > 1 {
      var rest := JoinWith(sep, parts[1..]);
      JoinBreaks(sep, parts[1..]);
      BreaklessSum(parts[0] + [sep], rest);
      BreaklessSum(parts[0], [sep]);
      assert forall i :: 1 <= i < |parts| ==> parts[i] == parts[1..][i - 1];
    }
  }

  lemma TokenIsBreakless(s: string)
    requires forall i :: 0 <= i < |s| ==> IsTokenChar(s[i])
    ensures Breakless(s)
  {
  }

  lemma DeviceIsBreakless(s: string)
    requires IsDevice(s)
    ensures Breakless(s)
  {
    var parts := SplitOn(':', s);
    JoinOfSplit(':', s);
    TokenIsBreakless(parts[0]);
    TokenIsBreakless(parts[1]);
    JoinBreaks(':', parts);
  }

  lemma OptionsAreBreakless(options: seq<string>)
    requires OptionsFormed(options)
    ensures Breakless(JoinWith(',', options))
  {
    forall i | 0 <= i < |options|
      ensures Breakless(options[i])
    {
      TokenIsBreakless(options[i]);
    }
    JoinBreaks(',', options);
  }

  lemma FieldsBreak(row: Row)
    requires RowFormed(row)
    ensures Breakless(JoinWith(' ', Fields(row))) <==> OnlyNewlines(row.root) && OnlyNewlines(row.point)
  {
    var fields := Fields(row);
    JoinBreaks(' ', fields);
    EncodeBreaks(row.root);
    EncodeBreaks(row.point);
    assert fields[3] == Encode(row.root) && fields[4] == Encode(row.point);
    OtherFields(row);
  }

  lemma OtherFields(row: Row)
    requires RowFormed(row)
    ensures forall i :: 0 <= i < |Fields(row)| && i != 3 && i != 4 ==> Breakless(Fields(row)[i])
  {
    DigitsValue(row.id);
    DigitsValue(row.parent);
    TokenIsBreakless(Digits(row.id));
    TokenIsBreakless(Digits(row.parent));
    DeviceIsBreakless(row.device);
    OptionsAreBreakless(row.options);
    forall i | 0 <= i < |row.optional|
      ensures Breakless(row.optional[i])
    {
      TokenIsBreakless(row.optional[i]);
    }
  }

  lemma RowBreaks(row: Row)
    requires RowFormed(row)
    ensures Breakless(Render(row)) <==> OnlyNewlines(row.root) && OnlyNewlines(row.point)
  {
    var a, b := JoinWith(' ', Fields(row)), JoinWith(' ', row.tail);
    FieldsBreak(row);
    JoinBreaks(' ', row.tail);
    BreaklessSum(a + " - ", b);
    BreaklessSum(a, " - ");
    assert Breakless(" - ");
  }

  // The whole table.

  function Lines(rows: seq<Row>): (lines: seq<string>)
    ensures |lines| == |rows| && forall i :: 0 <= i < |rows| ==> lines[i] == Render(rows[i])
  {
    seq(|rows|, i requires 0 <= i < |rows| => Render(rows[i]))
  }

  lemma {:induction false} FirstBreak(s: string) returns (k: nat)
    requires !Breakless(s)
    ensures k < |s| && IsBreak(s[k]) && Breakless(s[..k])
  {
    if IsBreak(s[0]) {
      k := 0;
    } else {
      assert !Breakless(s[1..]) by {
        var i :| 0 <= i < |s| && IsBreak(s[i]);
        assert s[1..][i - 1] == s[i];
      }
      k := FirstBreak(s[1..]);
      assert s[..k + 1] == [s[0]] + s[1..][..k];
      k := k + 1;
    }
  }

  /** What is left of a row cut at its first break lacks the separator, so it is refused. */
  lemma DirtyRowIsRefused(row: Row) returns (k: nat)
    requires RowFormed(row) && !Breakless(Render(row))
    ensures k < |Render(row)| && IsBreak(Render(row)[k]) && Breakless(Render(row)[..k])
    ensures ParseLine(Render(row)[..k]) == None
  {
    var a, line := JoinWith(' ', Fields(row)), Render(row);
    RowBreaks(row);
    FieldsBreak(row);
    k := FirstBreak(line);
    var i := FirstBreak(a);
    assert line[i] == a[i];
    BreakIsNotBefore(line, k, i);
    assert line[..k] == a[..k];
    FieldsFormed(row);
    AllUnmarked(Fields(row), "");
    FrontUnmarked(a, k);
    CutOne(a[..k]);
  }

  lemma BreakIsNotBefore(s: string, k: nat, i: nat)
    requires k <= |s| && i < |s| && IsBreak(s[i])
    ensures Breakless(s[..k]) ==> k <= i
  {
    assert i < k ==> s[..k][i] == s[i];
  }

  lemma FrontUnmarked(a: string, k: nat)
    requires Unmarked(a, "") && k <= |a|
    ensures Unmarked(a[..k], "")
  {
    forall i | 0 <= i < k
      ensures !MarkAt(a[..k] + "", i)
    {
      assert a + "" == a && a[..k] + "" == a[..k];
      assert i + 3 <= k ==> a[..k][i..i + 3] == a[i..i + 3];
      assert !MarkAt(a + "", i);
    }
  }

  ghost predicate RowsFormed(rows: seq<Row>) {
    && (forall i :: 0 <= i < |rows| ==> RowFormed(rows[i]))
    && forall i, j :: 0 <= i < j < |rows| ==> rows[i].id != rows[j].id
  }

  ghost predicate AllClean(rows: seq<Row>) {
    forall i :: 0 <= i < |rows| ==> OnlyNewlines(rows[i].root) && OnlyNewlines(rows[i].point)
  }

  lemma {:induction false} FirstDirty(rows: seq<Row>, n: nat) returns (j: nat)
    requires n <= |rows| && exists i :: 0 <= i < n && !Breakless(Render(rows[i]))
    ensures j < n && !Breakless(Render(rows[j])) && forall i :: 0 <= i < j ==> Breakless(Render(rows[i]))
  {
    if i :| 0 <= i < n - 1 && !Breakless(Render(rows[i])) {
      j := FirstDirty(rows, n - 1);
    } else {
      j := n - 1;
    }
  }

  lemma DirtyTableIsRefused(rows: seq<Row>)
    requires RowsFormed(rows) && !AllClean(rows)
    ensures !Parses(ParseLine, SplitLines(TextOf(Lines(rows))))
  {
    var i :| 0 <= i < |rows| && !(OnlyNewlines(rows[i].root) && OnlyNewlines(rows[i].point));
    RowBreaks(rows[i]);
    var j := FirstDirty(rows, |rows|);
    var k := DirtyRowIsRefused(rows[j]);
    DirtyLineIsCut(Lines(rows), j, k);
  }

  lemma CleanTableSplits(rows: seq<Row>)
    requires RowsFormed(rows) && AllClean(rows)
    ensures SplitLines(TextOf(Lines(rows))) == Lines(rows)
    ensures forall i :: 0 <= i < |rows| ==>
              ParseLine(Lines(rows)[i]) == if Utf8Length(Lines(rows)[i]) <= MAX_LINE then Some(RecordOf(rows[i])) else None
  {
    forall i | 0 <= i < |rows|
      ensures Breakless(Lines(rows)[i])
    {
      RowBreaks(rows[i]);
    }
    CleanTextSplits(Lines(rows));
    forall i | 0 <= i < |rows|
      ensures ParseLine(Lines(rows)[i]) == if Utf8Length(Lines(rows)[i]) <= MAX_LINE then Some(RecordOf(rows[i])) else None
    {
      ParseInvertsRender(rows[i]);
    }
  }

  /** A printed table is accepted exactly when it is within the limits and no path holds a line break other than a newline. */
  lemma {:induction false} TableReadsBack(rows: seq<Row>)
    requires RowsFormed(rows)
    ensures var lines := Lines(rows);
            Accepted(TextOf(lines)) <==>
              && 1 <= |rows| <= MAX_RECORDS && Utf8Length(TextOf(lines)) <= MAX_BYTES && AllClean(rows)
              && forall i :: 0 <= i < |rows| ==> Utf8Length(lines[i]) <= MAX_LINE
    ensures Accepted(TextOf(Lines(rows))) ==>
              && SplitLines(TextOf(Lines(rows))) == Lines(rows)
              && forall i :: 0 <= i < |rows| ==> ParseLine(Lines(rows)[i]) == Some(RecordOf(rows[i]))
  {
    if !AllClean(rows) {
      DirtyTableIsRefused(rows);
    } else {
      CleanTableSplits(rows);
      CleanTableParses(ParseLine, rows, Lines(rows));
      if rows != [] {
        TextEnds(Lines(rows));
      }
    }
  }

  lemma CleanTableParses(parse: LineParser, rows: seq<Row>, lines: seq<string>)
    requires RowsFormed(rows) && |lines| == |rows|
    requires forall i :: 0 <= i < |rows| ==> parse(lines[i]) == if Utf8Length(lines[i]) <= MAX_LINE then Some(RecordOf(rows[i])) else None
    ensures Parses(parse, lines) <==> forall i :: 0 <= i < |rows| ==> Utf8Length(lines[i]) <= MAX_LINE
  {
    if forall i :: 0 <= i < |rows| ==> Utf8Length(lines[i]) <= MAX_LINE {
      assert forall i :: 0 <= i < |rows| ==> parse(lines[i]) == Some(RecordOf(rows[i]));
    }
  }

  // Where it fails.

  /** The row with a carriage return in its mount point. */
  function WithReturn(row: Row, i: nat): Row
    requires i <= |row.point|
  {
    row.(point := row.point[..i] + ['\r'] + row.point[i..])
  }

  lemma ReturnIsFormed(row: Row, i: nat)
    requires RowFormed(row) && 0 < i <= |row.point|
    ensures RowFormed(WithReturn(row, i)) && !OnlyNewlines(WithReturn(row, i).point)
  {
    var point := WithReturn(row, i).point;
    assert point[0] == row.point[0] && point[i] == '\r' && IsBreak(point[i]);
  }

  /** The kernel does not escape a carriage return, so one in any mount point has the whole table refused. */
  lemma {:induction false} CarriageReturnIsRefused(rows: seq<Row>, j: nat, i: nat)
    requires RowsFormed(rows) && j < |rows| && 0 < i <= |rows[j].point|
    ensures var dirty := rows[j := WithReturn(rows[j], i)];
            RowsFormed(dirty) && !Accepted(TextOf(Lines(dirty)))
  {
    var dirty := rows[j := WithReturn(rows[j], i)];
    ReturnIsFormed(rows[j], i);
    assert RowsFormed(dirty) && !OnlyNewlines(dirty[j].point);
    TableReadsBack(dirty);
  }

  /** A mount at the root. */
  function RootRow(): Row {
    Row(1, 1, "0:1", "/", "/", ["rw"], [], ["t", "s", "o"])
  }

  lemma RootRowFormed()
    ensures RowFormed(RootRow())
  {
    DeviceSplits('0', '1');
    assert "0:1" == ['0', ':', '1'];
  }

  lemma DeviceSplits(a: char, b: char)
    requires a != ':' && b != ':'
    ensures SplitOn(':', [a, ':', b]) == [[a], [b]]
  {
    assert [a, ':', b][1..] == [':', b] && [':', b][1..] == [b] && [b][1..] == "";
    assert SplitOn(':', "") == [""];
    assert [a] + "" == [a] && [b] + "" == [b];
    assert SplitOn(':', [b]) == [[b]];
    assert SplitOn(':', [':', b]) == [""] + [[b]];
    assert SplitOn(':', [a, ':', b]) == [[a]] + [[b]];
  }

  /** One such table: a single mount at `/` followed by a carriage return. */
  lemma OneRowIsRefused()
    ensures RowsFormed([RootRow()]) && WithReturn(RootRow(), 1).point == "/\r"
    ensures RowsFormed([WithReturn(RootRow(), 1)]) && !Accepted(TextOf(Lines([WithReturn(RootRow(), 1)])))
  {
    RootRowFormed();
    CarriageReturnIsRefused([RootRow()], 0, 1);
    assert [RootRow()][0 := WithReturn(RootRow(), 1)] == [WithReturn(RootRow(), 1)];
  }
}
