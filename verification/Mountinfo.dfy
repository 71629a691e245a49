/** `parse_mountinfo`: one record per line of `/proc/<pid>/mountinfo`, with the kernel's octal escapes undone. */
module Mountinfo {
  import opened Outcome
  import opened Text
  import opened MountOracle

  // Escapes.

  /** The kernel's escape for `c`, if it has one. */
  function Piece(c: char): string {
    if c == ' ' then "\\040" else if c == '\t' then "\\011" else if c == '\n' then "\\012" else if c == '\\' then "\\134" else [c]
  }

  /** How the kernel prints a path. */
  function Encode(s: string): string {
    if s == "" then "" else Piece(s[0]) + Encode(s[1..])
  }

  /** The three digits after a backslash that stand for a character. */
  function CodeAt(s: string, i: nat): Option<char> {
    if i + 3 > |s| then None
    else if s[i..i + 3] == "040" then Some(' ')
    else if s[i..i + 3] == "011" then Some('\t')
    else if s[i..i + 3] == "012" then Some('\n')
    else if s[i..i + 3] == "134" then Some('\\')
    else None
  }

  /** The search: some backslash starts no known escape. */
  predicate BadEscape(s: string) {
    exists i :: 0 <= i < |s| && s[i] == '\\' && CodeAt(s, i + 1).None?
  }

  /** The substitution, left to right. */
  function Substitute(s: string): string {
    if s == "" then ""
    else if s[0] == '\\' && CodeAt(s, 1).Some? then [CodeAt(s, 1).value] + Substitute(s[4..])
    else [s[0]] + Substitute(s[1..])
  }

  function Decode(s: string): Option<string> {
    if BadEscape(s) then None else Some(Substitute(s))
  }

  lemma CodeShift(p: string, rest: string, i: nat)
    ensures CodeAt(p + rest, |p| + i) == CodeAt(rest, i)
  {
    if i + 3 <= |rest| {
      assert (p + rest)[|p| + i..|p| + i + 3] == rest[i..i + 3];
    }
  }

  lemma PieceCode(c: char, rest: string)
    ensures |Piece(c)| == 4 ==> Piece(c)[0] == '\\' && CodeAt(Piece(c) + rest, 1) == Some(c)
    ensures |Piece(c)| != 4 ==> Piece(c) == [c] && c != '\\'
    ensures |Piece(c)| == 4 ==> forall i :: 1 <= i < 4 ==> Piece(c)[i] != '\\'
  {
    var text := Piece(c) + rest;
    if |Piece(c)| == 4 {
      assert text[1..4] == Piece(c)[1..4];
      assert "\\040"[1..4] == "040" && "\\011"[1..4] == "011" && "\\012"[1..4] == "012" && "\\134"[1..4] == "134";
      assert "040"[1] == '4' && "011"[1] == '1' && "012"[1] == '1' && "134"[1] == '3' && "011"[2] == '1' && "012"[2] == '2';
    }
  }

  /** Decoding inverts the encoder on every string, also on text that looks like an escape itself. */
  lemma {:induction false} DecodeInvertsEncode(s: string)
    ensures !BadEscape(Encode(s)) && Substitute(Encode(s)) == s
    ensures Decode(Encode(s)) == Some(s)
  {
    if s != "" {
      DecodeInvertsEncode(s[1..]);
      var piece, rest := Piece(s[0]), Encode(s[1..]);
      var text := piece + rest;
      PieceCode(s[0], rest);
      NoBadEscape(s[0], rest);
      assert text[|piece|..] == rest;
      assert s == [s[0]] + s[1..];
    }
  }

  lemma NoBadEscape(c: char, rest: string)
    requires !BadEscape(rest)
    ensures !BadEscape(Piece(c) + rest)
  {
    var piece, text := Piece(c), Piece(c) + rest;
    PieceCode(c, rest);
    forall i | 0 <= i < |text| && text[i] == '\\'
      ensures CodeAt(text, i + 1).Some?
    {
      if i >= |piece| {
        CodeShift(piece, rest, i - |piece| + 1);
      }
    }
  }

  /** Text as the kernel prints it: no raw separator, and only the escapes it uses. */
  ghost predicate IsEncoded(s: string) {
    !BadEscape(s) && ' ' !in s && '\t' !in s && '\n' !in s
  }

  lemma TailIsEncoded(s: string, n: nat)
    requires IsEncoded(s) && n <= |s|
    ensures IsEncoded(s[n..])
  {
    var tail := s[n..];
    assert s == s[..n] + tail;
    forall i | 0 <= i < |tail| && tail[i] == '\\'
      ensures CodeAt(tail, i + 1).Some?
    {
      assert s[n + i] == '\\';
      CodeShift(s[..n], tail, i + 1);
    }
  }

  lemma EscapeIsPiece(s: string)
    requires s != "" && s[0] == '\\' && CodeAt(s, 1).Some?
    ensures |s| >= 4 && s == Piece(CodeAt(s, 1).value) + s[4..]
  {
    assert s == [s[0]] + s[1..4] + s[4..];
    assert Piece(CodeAt(s, 1).value) == [s[0]] + s[1..4];
  }

  /** Conversely, decoding loses nothing: encoding the result restores exactly the encoded texts. */
  lemma {:induction false} EncodeInvertsDecode(s: string)
    requires IsEncoded(s)
    ensures Encode(Substitute(s)) == s
    decreases |s|
  {
    if s != "" {
      if s[0] == '\\' {
        TailIsEncoded(s, 4);
        EncodeInvertsDecode(s[4..]);
        EscapeIsPiece(s);
        assert Substitute(s)[1..] == Substitute(s[4..]);
      } else {
        TailIsEncoded(s, 1);
        EncodeInvertsDecode(s[1..]);
        assert Substitute(s)[1..] == Substitute(s[1..]);
        assert s == [s[0]] + s[1..];
      }
    }
  }

  /** The encoder's range: a text decodes and encodes back to itself exactly when it is encoded text. */
  lemma DecodeIsExact(s: string)
    ensures (Decode(s).Some? && Encode(Decode(s).value) == s) <==> IsEncoded(s)
  {
    if IsEncoded(s) {
      EncodeInvertsDecode(s);
    } else if Decode(s).Some? {
      EncodedHasNoSeparator(Decode(s).value);
    }
  }

  lemma {:induction false} EncodedHasNoSeparator(s: string)
    ensures ' ' !in Encode(s) && '\t' !in Encode(s) && '\n' !in Encode(s)
  {
    if s != "" {
      EncodedHasNoSeparator(s[1..]);
    }
  }

  // Lines.

  predicate MarkAt(s: string, i: nat) {
    i + 3 <= |s| && s[i..i + 3] == " - "
  }

  /** `line.split(' - ')`. */
  function Cut(s: string): (pieces: seq<string>)
    ensures |pieces| >= 1
  {
    if s == "" then [""]
    else if MarkAt(s, 0) then [""] + Cut(s[3..])
    else
      var rest := Cut(s[1..]);
      [[s[0]] + rest[0]] + rest[1..]
  }

  predicate AllDigits(s: string) {
    forall i :: 0 <= i < |s| ==> IsDigit(s[i])
  }

  /** `[1-9][0-9]{0,9}` with a value that fits 31 bits. */
  predicate IsId(s: string) {
    1 <= |s| <= 10 && AllDigits(s) && s[0] != '0' && Value(s) <= 2147483647
  }

  /** `[0-9]{1,10}:[0-9]{1,10}`. */
  predicate IsDevice(s: string) {
    var parts := SplitOn(':', s);
    |parts| == 2 && 1 <= |parts[0]| <= 10 && AllDigits(parts[0]) && 1 <= |parts[1]| <= 10 && AllDigits(parts[1])
  }

  predicate IsTokenChar(c: char) {
    'A' <= c <= 'Z' || 'a' <= c <= 'z' || IsDigit(c) || c in {'_', '.', ':', '-'}
  }

  predicate IsToken(s: string) {
    s != "" && forall i :: 0 <= i < |s| ==> IsTokenChar(s[i])
  }

  /** A propagation tag must carry a peer group number. */
  predicate PropagationFormed(tag: string) {
    HasPropagation(tag) ==>
      exists kind :: kind in {"shared:", "master:", "propagate_from:"} && kind <= tag && IsPeer(tag[|kind|..])
  }

  predicate IsPeer(s: string) {
    1 <= |s| <= 10 && AllDigits(s) && s[0] != '0'
  }

  predicate DistinctTexts(xs: seq<string>) {
    forall i, j :: 0 <= i < j < |xs| ==> xs[i] != xs[j]
  }

  predicate OptionsFormed(options: seq<string>) {
    DistinctTexts(options) && ("rw" in options) != ("ro" in options) && forall i :: 0 <= i < |options| ==> IsToken(options[i])
  }

  predicate OptionalFormed(optional: seq<string>) {
    forall i :: 0 <= i < |optional| ==> IsToken(optional[i]) && PropagationFormed(optional[i])
  }

  predicate IsMountPath(s: string) {
    s != "" && s[0] == '/' && '\0' !in s
  }

  function TextSet(xs: seq<string>): set<string> {
    set x | x in xs
  }

  /** The checks on the fields of one line. */
  function ParseFields(fields: seq<string>, tail: seq<string>): Option<(nat, Mount)> {
    if |fields| < 6 || |tail| != 3 || "" in fields || "" in tail then None
    else if !IsId(fields[0]) || !IsId(fields[1]) || !IsDevice(fields[2]) then None
    else ParseMount(fields, tail, Decode(fields[3]), Decode(fields[4]), SplitOn(',', fields[5]), fields[6..])
  }

  function ParseMount(fields: seq<string>, tail: seq<string>, root: Option<string>, point: Option<string>, options: seq<string>,
                      optional: seq<string>): Option<(nat, Mount)>
    requires fields != []
  {
    if root.None? || point.None? || !IsMountPath(root.value) || !IsMountPath(point.value) then None
    else if !OptionsFormed(options) || !OptionalFormed(optional) then None
    else Some((Value(fields[0]), Mount(point.value, TextSet(options), optional, fields + ["-"] + tail)))
  }

  /** `len(s.encode())`: the bytes of UTF-8 text. */
  function Utf8Size(c: char): nat {
    if c < '\U{80}' then 1 else if c < '\U{800}' then 2 else if c < '\U{10000}' then 3 else 4
  }

  function Utf8Length(s: string): nat {
    if s == "" then 0 else Utf8Size(s[0]) + Utf8Length(s[1..])
  }

  const MAX_LINE := 16384

  function ParseLine(line: string): Option<(nat, Mount)> {
    if Utf8Length(line) > MAX_LINE then None else ParseHalves(Cut(line))
  }

  function ParseHalves(halves: seq<string>): Option<(nat, Mount)> {
    if |halves| != 2 then None else ParseFields(SplitOn(' ', halves[0]), SplitOn(' ', halves[1]))
  }

  const MAX_RECORDS := 8192

  type LineParser = string -> Option<(nat, Mount)>

  /** Every line parses, and no two to the same id. */
  ghost predicate Parses(parse: LineParser, lines: seq<string>) {
    && (forall i :: 0 <= i < |lines| ==> parse(lines[i]).Some?)
    && forall i, j :: 0 <= i < j < |lines| ==> parse(lines[i]).value.0 != parse(lines[j]).value.0
  }

  /** The table holds the record of each line under its id, and nothing else. */
  ghost predicate Tabulates(parse: LineParser, lines: seq<string>, records: map<nat, Mount>)
    requires Parses(parse, lines)
  {
    && |records| == |lines| && records.Keys == Ids(parse, lines)
    && forall i :: 0 <= i < |lines| ==>
         parse(lines[i]).value.0 in records && records[parse(lines[i]).value.0] == parse(lines[i]).value.1
  }

  ghost function Ids(parse: LineParser, lines: seq<string>): set<nat>
    requires forall i :: 0 <= i < |lines| ==> parse(lines[i]).Some?
  {
    set i | 0 <= i < |lines| :: parse(lines[i]).value.0
  }

  /** One turn of the loop. */
  function AddLine(parse: LineParser, records: map<nat, Mount>, line: string): Option<map<nat, Mount>> {
    match parse(line)
    case None => None
    case Some((id, mount)) => if id in records then None else Some(records[id := mount])
  }

  lemma LineAdded(parse: LineParser, lines: seq<string>, records: map<nat, Mount>, line: string)
    requires Parses(parse, lines) && Tabulates(parse, lines, records)
    ensures AddLine(parse, records, line).Some? <==> Parses(parse, lines + [line])
    ensures AddLine(parse, records, line).Some? ==> Tabulates(parse, lines + [line], AddLine(parse, records, line).value)
  {
    var more := lines + [line];
    assert more[|lines|] == line;
    if parse(line).Some? {
      var (id, mount) := parse(line).value;
      if id !in records {
        LineParses(parse, lines, records, line, more);
        LineTabulates(parse, lines, records, line, more);
      } else {
        var i :| 0 <= i < |lines| && parse(lines[i]).value.0 == id;
        assert parse(more[i]).value.0 == parse(more[|lines|]).value.0;
      }
    }
  }

  lemma LineParses(parse: LineParser, lines: seq<string>, records: map<nat, Mount>, line: string, more: seq<string>)
    requires Parses(parse, lines) && Tabulates(parse, lines, records)
    requires parse(line).Some? && parse(line).value.0 !in records && more == lines + [line]
    ensures Parses(parse, more)
  {
    assert forall i :: 0 <= i < |lines| ==> more[i] == lines[i];
    assert more[|lines|] == line;
  }

  lemma LineTabulates(parse: LineParser, lines: seq<string>, records: map<nat, Mount>, line: string, more: seq<string>)
    requires Parses(parse, lines) && Tabulates(parse, lines, records)
    requires parse(line).Some? && parse(line).value.0 !in records && more == lines + [line] && Parses(parse, more)
    ensures Tabulates(parse, more, records[parse(line).value.0 := parse(line).value.1])
  {
    var (id, mount) := parse(line).value;
    IdsGrow(parse, lines, line, more);
    RecordAdded(records, id, mount);
    forall i | 0 <= i < |more|
      ensures parse(more[i]).value.0 in records[id := mount] && records[id := mount][parse(more[i]).value.0] == parse(more[i]).value.1
    {
      StillTabulated(parse, lines, records, line, more, i);
    }
  }

  lemma StillTabulated(parse: LineParser, lines: seq<string>, records: map<nat, Mount>, line: string, more: seq<string>, i: nat)
    requires Parses(parse, lines) && Tabulates(parse, lines, records)
    requires parse(line).Some? && parse(line).value.0 !in records && more == lines + [line] && i < |more|
    ensures var table := records[parse(line).value.0 := parse(line).value.1];
            && parse(more[i]).Some? && parse(more[i]).value.0 in table
            && table[parse(more[i]).value.0] == parse(more[i]).value.1
  {
    assert more[i] == if i < |lines| then lines[i] else line;
  }

  lemma RecordAdded(records: map<nat, Mount>, id: nat, mount: Mount)
    requires id !in records
    ensures |records[id := mount]| == |records| + 1 && records[id := mount].Keys == records.Keys + {id}
  {
    assert records[id := mount].Keys == records.Keys + {id};
  }

  lemma IdsGrow(parse: LineParser, lines: seq<string>, line: string, more: seq<string>)
    requires more == lines + [line] && forall i :: 0 <= i < |more| ==> parse(more[i]).Some?
    ensures parse(line).Some? && forall i :: 0 <= i < |lines| ==> parse(lines[i]).Some?
    ensures Ids(parse, more) == Ids(parse, lines) + {parse(line).value.0}
  {
    assert more[|lines|] == line;
    forall i | 0 <= i < |lines|
      ensures parse(lines[i]).Some? && parse(lines[i]).value.0 in Ids(parse, more)
    {
      assert more[i] == lines[i];
    }
  }

  /** The loop over the lines, for any line parser. */
  method ParseTable(parse: LineParser, lines: seq<string>) returns (r: Result<map<nat, Mount>, Code>)
    ensures r.Ok? <==> 1 <= |lines| <= MAX_RECORDS && Parses(parse, lines)
    ensures r.Ok? ==> Tabulates(parse, lines, r.value)
  {
    if lines == [] || |lines| > MAX_RECORDS {
      return Err(MountinfoInvalid);
    }
    var records: map<nat, Mount> := map[];
    for i := 0 to |lines|
      invariant Parses(parse, lines[..i]) && Tabulates(parse, lines[..i], records)
    {
      LineAdded(parse, lines[..i], records, lines[i]);
      assert lines[..i] + [lines[i]] == lines[..i + 1];
      var next := AddLine(parse, records, lines[i]);
      if next.None? {
        PrefixParses(parse, lines, i + 1);
        return Err(MountinfoInvalid);
      }
      records := next.value;
    }
    assert lines[..|lines|] == lines;
    return Ok(records);
  }

  lemma PrefixParses(parse: LineParser, lines: seq<string>, n: nat)
    requires n <= |lines|
    ensures Parses(parse, lines) ==> Parses(parse, lines[..n])
  {
  }

  // The kernel's side: printing a row, and reading it back.

  datatype Row = Row(id: nat, parent: nat, device: string, root: string, point: string, options: seq<string>,
                     optional: seq<string>, tail: seq<string>)

  function Fields(row: Row): seq<string> {
    [Digits(row.id), Digits(row.parent), row.device, Encode(row.root), Encode(row.point), JoinWith(',', row.options)] + row.optional
  }

  function Render(row: Row): string {
    JoinWith(' ', Fields(row)) + " - " + JoinWith(' ', row.tail)
  }

  /** A field that can stand between spaces: not empty, no space in it, and not the bare separator. */
  predicate IsField(s: string) {
    s != "" && ' ' !in s && s != "-"
  }

  /** Where `str.splitlines` ends a line. */
  predicate IsBreak(c: char) {
    '\n' <= c <= '\r' || '\U{1C}' <= c <= '\U{1E}' || c == '\U{85}' || c == '\U{2028}' || c == '\U{2029}'
  }

  predicate Breakless(s: string) {
    forall i :: 0 <= i < |s| ==> !IsBreak(s[i])
  }

  /** What the kernel prints; paths are arbitrary text from the root, the other fields need no escapes. */
  ghost predicate RowFormed(row: Row) {
    && 1 <= row.id <= 2147483647 && 1 <= row.parent <= 2147483647
    && IsDevice(row.device) && IsField(row.device)
    && IsMountPath(row.root) && IsMountPath(row.point)
    && row.options != [] && OptionsFormed(row.options)
    && OptionalFormed(row.optional) && (forall i :: 0 <= i < |row.optional| ==> IsField(row.optional[i]))
    && |row.tail| == 3 && forall i :: 0 <= i < |row.tail| ==> IsField(row.tail[i]) && Breakless(row.tail[i])
  }

  lemma MarkShift(a: string, b: string, i: nat)
    ensures MarkAt(a + b, |a| + i) <==> MarkAt(b, i)
  {
    if i + 3 <= |b| {
      assert (a + b)[|a| + i..|a| + i + 3] == b[i..i + 3];
    }
  }

  /** No mark of `p + s` starts inside `p`. */
  ghost predicate Unmarked(p: string, s: string) {
    forall i :: 0 <= i < |p| ==> !MarkAt(p + s, i)
  }

  /** Characters before the first mark stay in the first piece. */
  lemma {:induction false} CutPrefix(p: string, s: string)
    requires Unmarked(p, s)
    ensures Cut(p + s) == [p + Cut(s)[0]] + Cut(s)[1..]
  {
    var cut := Cut(s);
    if p == "" {
      assert p + s == s && p + cut[0] == cut[0];
    } else {
      var text, q := p + s, p[1..] + s;
      assert text == [p[0]] + q;
      forall i | 0 <= i < |p[1..]|
        ensures !MarkAt(q, i)
      {
        MarkShift([p[0]], q, i);
        assert !MarkAt(text, i + 1);
      }
      CutPrefix(p[1..], s);
      assert !MarkAt(text, 0) && text[1..] == q;
      assert Cut(q)[0] == p[1..] + cut[0] && Cut(q)[1..] == cut[1..];
      assert [p[0]] + (p[1..] + cut[0]) == p + cut[0];
    }
  }

  /** No mark starts inside joined fields. */
  lemma {:induction false} FieldsUnmarked(fields: seq<string>, s: string, i: nat)
    requires forall k :: 0 <= k < |fields| ==> IsField(fields[k])
    requires i < |JoinWith(' ', fields)|
    ensures !MarkAt(JoinWith(' ', fields) + s, i)
  {
    var text := JoinWith(' ', fields) + s;
    if |fields| == 1 {
      assert text[i] != ' ';
    } else {
      var f, rest := fields[0], JoinWith(' ', fields[1..]);
      assert text == f + [' '] + rest + s;
      if i < |f| {
        assert text[i] != ' ';
      } else if i == |f| {
        AfterSpace(fields[1..], s);
        if i + 3 <= |text| {
          assert text[i..i + 3] == [' '] + (rest + s)[..2];
          assert text[i..i + 3][1..] == (rest + s)[..2] && " - "[1..] == "- ";
        }
      } else {
        var j := i - |f| - 1;
        FieldsUnmarked(fields[1..], s, j);
        if i + 3 <= |text| {
          assert text[i..i + 3] == (rest + s)[j..j + 3];
        }
      }
    }
  }

  /** A field is never read as the separator's dash. */
  lemma AfterSpace(fields: seq<string>, s: string)
    requires fields != [] && forall k :: 0 <= k < |fields| ==> IsField(fields[k])
    ensures var text := JoinWith(' ', fields) + s;
            |text| >= 2 ==> text[..2] != "- "
  {
    var text, f := JoinWith(' ', fields) + s, fields[0];
    assert IsField(f);
    assert f <= JoinWith(' ', fields);
    assert text[0] == f[0];
    if |f| >= 2 {
      assert text[1] == f[1] && f[1] in f;
    } else {
      assert f == [f[0]] && f[0] != '-';
    }
  }

  lemma CutRendered(fields: seq<string>, tail: seq<string>)
    requires forall k :: 0 <= k < |fields| ==> IsField(fields[k])
    requires forall k :: 0 <= k < |tail| ==> IsField(tail[k])
    ensures Cut(JoinWith(' ', fields) + " - " + JoinWith(' ', tail)) == [JoinWith(' ', fields), JoinWith(' ', tail)]
  {
    var a, b := JoinWith(' ', fields), JoinWith(' ', tail);
    CutWhole(tail);
    AllUnmarked(fields, " - " + b);
    CutTwo(a, b);
  }

  lemma AllUnmarked(fields: seq<string>, s: string)
    requires forall k :: 0 <= k < |fields| ==> IsField(fields[k])
    ensures Unmarked(JoinWith(' ', fields), s)
  {
    forall i | 0 <= i < |JoinWith(' ', fields)|
      ensures !MarkAt(JoinWith(' ', fields) + s, i)
    {
      FieldsUnmarked(fields, s, i);
    }
  }

  lemma CutTwo(a: string, b: string)
    requires Cut(b) == [b] && Unmarked(a, " - " + b)
    ensures Cut(a + " - " + b) == [a, b]
  {
    MarkBetween(a, b);
    CutMark(b);
    CutBehind(a, " - " + b, "", [b]);
    assert a + "" == a;
  }

  lemma MarkBetween(a: string, b: string)
    ensures a + " - " + b == a + (" - " + b)
  {
  }

  /** What the text before the first mark adds to the first piece. */
  lemma CutBehind(a: string, s: string, first: string, rest: seq<string>)
    requires Unmarked(a, s) && Cut(s) == [first] + rest
    ensures Cut(a + s) == [a + first] + rest
  {
    CutPrefix(a, s);
  }

  lemma CutMark(b: string)
    ensures Cut(" - " + b) == [""] + Cut(b)
  {
    var s := " - " + b;
    assert MarkAt(s, 0) && s[3..] == b;
  }

  lemma CutWhole(tail: seq<string>)
    requires forall k :: 0 <= k < |tail| ==> IsField(tail[k])
    ensures Cut(JoinWith(' ', tail)) == [JoinWith(' ', tail)]
  {
    AllUnmarked(tail, "");
    CutOne(JoinWith(' ', tail));
  }

  lemma CutOne(b: string)
    requires Unmarked(b, "")
    ensures Cut(b) == [b]
  {
    CutPrefix(b, "");
    assert b + "" == b;
    assert Cut("") == [""];
  }

  lemma IdFormed(n: nat)
    requires 1 <= n <= 2147483647
    ensures IsId(Digits(n)) && IsField(Digits(n))
  {
    DigitsValue(n);
    assert Power10(10) == 10000000000 by {
      assert Power10(3) == 1000;
      assert Power10(6) == 1000000;
      assert Power10(9) == 1000000000;
    }
    DigitsLength(n, 10);
  }

  lemma {:induction false} EncodedPathIsField(s: string)
    requires IsMountPath(s)
    ensures IsField(Encode(s))
  {
    EncodedHasNoSeparator(s);
    assert Piece(s[0]) == "/";
    assert Encode(s)[0] == '/';
  }

  lemma {:induction false} JoinedOptionsAreField(options: seq<string>)
    requires options != [] && forall i :: 0 <= i < |options| ==> IsToken(options[i])
    ensures ' ' !in JoinWith(',', options) && JoinWith(',', options) != ""
  {
    if |options| > 1 {
      JoinedOptionsAreField(options[1..]);
    }
  }

  lemma OptionsAreField(options: seq<string>)
    requires options != [] && OptionsFormed(options)
    ensures IsField(JoinWith(',', options)) && SplitOn(',', JoinWith(',', options)) == options
  {
    JoinedOptionsAreField(options);
    forall p | p in options
      ensures ',' !in p
    {
      assert IsToken(p);
    }
    SplitOfJoin(',', options);
    SplitPlain(',', "-");
    assert "rw" !in ["-"] && "ro" !in ["-"];
  }

  lemma FieldsFormed(row: Row)
    requires RowFormed(row)
    ensures forall k :: 0 <= k < |Fields(row)| ==> IsField(Fields(row)[k])
  {
    IdFormed(row.id);
    IdFormed(row.parent);
    EncodedPathIsField(row.root);
    EncodedPathIsField(row.point);
    OptionsAreField(row.options);
  }

  lemma FieldsSplit(fields: seq<string>)
    requires fields != [] && forall k :: 0 <= k < |fields| ==> IsField(fields[k])
    ensures SplitOn(' ', JoinWith(' ', fields)) == fields && "" !in fields
  {
    forall p | p in fields
      ensures ' ' !in p && p != ""
    {
      var k :| 0 <= k < |fields| && fields[k] == p;
    }
    SplitOfJoin(' ', fields);
  }

  /** What a printed row reads back as: its id, its decoded mount point, its options and its tags. */
  function RecordOf(row: Row): (nat, Mount) {
    (row.id, Mount(row.point, TextSet(row.options), row.optional, Fields(row) + ["-"] + row.tail))
  }

  /** A printed row reads back exactly when its line is within the limit; a longer one is refused. */
  lemma {:induction false} ParseInvertsRender(row: Row)
    requires RowFormed(row)
    ensures ParseLine(Render(row)) == if Utf8Length(Render(row)) <= MAX_LINE then Some(RecordOf(row)) else None
  {
    HalvesParse(row);
  }

  lemma HalvesParse(row: Row)
    requires RowFormed(row)
    ensures ParseHalves(Cut(Render(row))) == Some(RecordOf(row))
  {
    var fields := Fields(row);
    FieldsFormed(row);
    CutRendered(fields, row.tail);
    FieldsSplit(fields);
    FieldsSplit(row.tail);
    FieldsParse(row);
  }

  lemma FieldsParse(row: Row)
    requires RowFormed(row) && "" !in Fields(row) && "" !in row.tail
    ensures ParseFields(Fields(row), row.tail) == Some(RecordOf(row))
  {
    var fields := Fields(row);
    IdFormed(row.id);
    IdFormed(row.parent);
    FieldsRead(row, fields);
    MountParses(row, fields);
  }

  lemma FieldsRead(row: Row, fields: seq<string>)
    requires RowFormed(row) && fields == Fields(row)
    ensures Decode(fields[3]) == Some(row.root) && Decode(fields[4]) == Some(row.point)
    ensures SplitOn(',', fields[5]) == row.options && fields[6..] == row.optional
  {
    DecodeInvertsEncode(row.root);
    DecodeInvertsEncode(row.point);
    OptionsAreField(row.options);
  }

  lemma MountParses(row: Row, fields: seq<string>)
    requires RowFormed(row) && fields == Fields(row)
    ensures ParseMount(fields, row.tail, Some(row.root), Some(row.point), row.options, row.optional) == Some(RecordOf(row))
  {
    DigitsValue(row.id);
  }
}
