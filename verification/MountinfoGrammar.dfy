/** Which lines `parse_mountinfo` accepts, written out: the parser refines this grammar. */
module MountinfoGrammar {
  import opened Outcome
  import opened Text
  import opened MountOracle
  import opened Mountinfo

  // The grammar.

  /** The length in UTF-8: one to four octets for up to 7, 11, 16 and 21 bits. */
  ghost function Octets(s: string): nat {
    if s == "" then 0
    else
      var n := s[0] as int;
      Octets(s[1..]) + if n < 128 then 1 else if n < 2048 then 2 else if n < 65536 then 3 else 4
  }

  lemma {:induction false} OctetsMean(s: string)
    ensures Utf8Length(s) == Octets(s)
  {
    if s != "" {
      OctetsMean(s[1..]);
    }
  }

  /** None of the first `n` letters starts a mark. */
  ghost predicate NoMark(s: string, n: nat) {
    forall i :: 0 <= i < n && i + 3 <= |s| ==> s[i] != ' ' || s[i + 1] != '-' || s[i + 2] != ' '
  }

  /** `before` and `after` stand on the two sides of the only mark. */
  ghost predicate OneMark(line: string, before: string, after: string) {
    line == before + " - " + after && NoMark(line, |before|) && NoMark(after, |after|)
  }

  ghost predicate Pieces(sep: char, s: string, pieces: seq<string>) {
    pieces != [] && s == JoinWith(sep, pieces) && forall p :: p in pieces ==> sep !in p
  }

  ghost predicate Numerals(s: string) {
    1 <= |s| <= 10 && forall i :: 0 <= i < |s| ==> '0' <= s[i] <= '9'
  }

  ghost predicate GoodId(s: string, n: nat) {
    1 <= n <= 2147483647 && s == Digits(n)
  }

  ghost predicate GoodDevice(s: string) {
    exists a, b :: Numerals(a) && Numerals(b) && s == a + ":" + b
  }

  /** The path a field spells: each letter stands for itself, and a backslash only before one of four codes. */
  ghost predicate Spelled(field: string, path: string)
    decreases |field|
  {
    if field == "" then path == ""
    else if path == "" then false
    else if field[0] != '\\' then path[0] == field[0] && Spelled(field[1..], path[1..])
    else
      && |field| >= 4 && Spelled(field[4..], path[1..])
      && ((field[1..4] == "040" && path[0] == ' ') || (field[1..4] == "011" && path[0] == '\t')
          || (field[1..4] == "012" && path[0] == '\n') || (field[1..4] == "134" && path[0] == '\\'))
  }

  ghost predicate GoodPath(field: string, path: string) {
    Spelled(field, path) && path != "" && path[0] == '/' && '\0' !in path
  }

  ghost predicate IsWord(s: string) {
    s != "" && forall i :: 0 <= i < |s| ==>
      || 'A' <= s[i] <= 'Z' || 'a' <= s[i] <= 'z' || '0' <= s[i] <= '9'
      || s[i] == '_' || s[i] == '.' || s[i] == ':' || s[i] == '-'
  }

  /** No option twice, and exactly one of `rw` and `ro`. */
  ghost predicate GoodOptions(options: seq<string>) {
    && (forall i, j :: 0 <= i < j < |options| ==> options[i] != options[j])
    && ("rw" in options || "ro" in options) && !("rw" in options && "ro" in options)
    && forall i :: 0 <= i < |options| ==> IsWord(options[i])
  }

  /** From letter `k` on, the tag is a number of at most ten digits. */
  ghost predicate PeerFrom(tag: string, k: nat) {
    k < |tag| <= k + 10 && tag[k] != '0' && forall i :: k <= i < |tag| ==> '0' <= tag[i] <= '9'
  }

  /** A tag for propagation carries its peer group's number. */
  ghost predicate GoodTag(tag: string) {
    && IsWord(tag)
    && (tag == "shared" || "shared:" <= tag ==> PeerFrom(tag, 7))
    && (tag == "master" || "master:" <= tag ==> PeerFrom(tag, 7))
    && (tag == "propagate_from" || "propagate_from:" <= tag ==> PeerFrom(tag, 15))
  }

  /** How a line divides. */
  datatype Division = Division(before: string, after: string, fields: seq<string>, tail: seq<string>, options: seq<string>,
                               parent: nat, root: string)

  ghost predicate Divides(line: string, d: Division) {
    && Octets(line) <= 16384 && OneMark(line, d.before, d.after)
    && Pieces(' ', d.before, d.fields) && Pieces(' ', d.after, d.tail)
    && |d.fields| >= 6 && |d.tail| == 3 && "" !in d.fields && "" !in d.tail
    && Pieces(',', d.fields[5], d.options)
  }

  /** The line is a mountinfo line for the id and the record. */
  ghost predicate LineReads(line: string, d: Division, id: nat, m: Mount) {
    && Divides(line, d)
    && GoodId(d.fields[0], id) && GoodId(d.fields[1], d.parent) && GoodDevice(d.fields[2])
    && GoodPath(d.fields[3], d.root) && GoodPath(d.fields[4], m.point) && GoodOptions(d.options)
    && (forall k :: 6 <= k < |d.fields| ==> GoodTag(d.fields[k]))
    && (forall o :: o in m.options <==> o in d.options)
    && m.optional == d.fields[6..] && m.exact == d.fields + ["-"] + d.tail
  }

  // The parser follows it.

  lemma MarkLetters(s: string, i: nat)
    ensures MarkAt(s, i) <==> i + 3 <= |s| && s[i] == ' ' && s[i + 1] == '-' && s[i + 2] == ' '
  {
    if i + 3 <= |s| {
      assert s[i..i + 3] == [s[i], s[i + 1], s[i + 2]];
      assert " - " == [' ', '-', ' '];
    }
  }

  lemma MarkMeans(s: string, n: nat)
    ensures NoMark(s, n) <==> forall i :: 0 <= i < n ==> !MarkAt(s, i)
  {
    if NoMark(s, n) {
      forall i | 0 <= i < n
        ensures !MarkAt(s, i)
      {
        MarkLetters(s, i);
      }
    }
    if forall i :: 0 <= i < n ==> !MarkAt(s, i) {
      forall i | 0 <= i < n && i + 3 <= |s|
        ensures s[i] != ' ' || s[i + 1] != '-' || s[i + 2] != ' '
      {
        MarkLetters(s, i);
        assert !MarkAt(s, i);
      }
    }
  }

  /** What the first cut leaves. */
  lemma {:induction false} CutFirst(s: string) returns (rest: string)
    ensures |Cut(s)| == 1 ==> Cut(s) == [s] && Unmarked(s, "")
    ensures |Cut(s)| > 1 ==> s == Cut(s)[0] + (" - " + rest) && Cut(rest) == Cut(s)[1..] && Unmarked(Cut(s)[0], " - " + rest)
  {
    if s == "" {
      rest := "";
    } else if MarkAt(s, 0) {
      rest := s[3..];
      assert s == "" + (" - " + rest);
    } else {
      rest := CutFirst(s[1..]);
      var head := Cut(s[1..])[0];
      assert s == [s[0]] + s[1..];
      if |Cut(s)| == 1 {
        LongerUnmarked(s, s[1..], "");
      } else {
        assert s == [s[0]] + head + (" - " + rest);
        LongerUnmarked(s, head, " - " + rest);
      }
    }
  }

  lemma LongerUnmarked(s: string, head: string, more: string)
    requires s != "" && s == [s[0]] + (head + more) && !MarkAt(s, 0) && Unmarked(head, more)
    ensures Unmarked([s[0]] + head, more)
  {
    assert [s[0]] + head + more == s;
    forall i | 0 <= i < |head| + 1
      ensures !MarkAt(s, i)
    {
      if i > 0 {
        MarkShift([s[0]], head + more, i - 1);
        assert !MarkAt(head + more, i - 1);
      }
    }
  }

  lemma CutMeans(line: string, before: string, after: string)
    ensures Cut(line) == [before, after] <==> OneMark(line, before, after)
  {
    MarkMeans(line, |before|);
    MarkMeans(after, |after|);
    assert after + "" == after;
    if Cut(line) == [before, after] {
      var rest := CutFirst(line);
      var last := CutFirst(rest);
      assert Cut(rest) == [after];
      assert line == before + " - " + after;
    }
    if OneMark(line, before, after) {
      MarkBetween(before, after);
      CutOne(after);
      CutTwo(before, after);
    }
  }

  lemma PiecesMean(sep: char, s: string, pieces: seq<string>)
    ensures SplitOn(sep, s) == pieces <==> Pieces(sep, s, pieces)
  {
    JoinOfSplit(sep, s);
    if Pieces(sep, s, pieces) {
      SplitOfJoin(sep, pieces);
    }
  }

  lemma {:induction false} DigitsOfValue(s: string)
    requires s != "" && AllDigits(s) && s[0] != '0'
    ensures Value(s) >= 1 && Digits(Value(s)) == s
    decreases |s|
  {
    var front, last := s[..|s| - 1], s[|s| - 1];
    assert s == front + [last];
    if front == "" {
      assert Value(front) == 0;
    } else {
      DigitsOfValue(front);
      NextDigit(Value(front), DigitValue(last));
    }
  }

  lemma NextDigit(n: nat, d: nat)
    requires n >= 1 && d < 10
    ensures (10 * n + d) / 10 == n && (10 * n + d) % 10 == d && 10 * n + d >= 10
  {
  }

  lemma IdMeans(s: string, n: nat)
    ensures IsId(s) && Value(s) == n <==> GoodId(s, n)
  {
    if IsId(s) {
      DigitsOfValue(s);
    }
    if GoodId(s, n) {
      IdFormed(n);
      DigitsValue(n);
    }
  }

  lemma DeviceMeans(s: string)
    ensures IsDevice(s) <==> GoodDevice(s)
  {
    if IsDevice(s) {
      var parts := SplitOn(':', s);
      JoinOfSplit(':', s);
      assert parts[1..] == [parts[1]];
      assert s == parts[0] + ":" + parts[1] && Numerals(parts[0]) && Numerals(parts[1]);
    }
    if a, b :| Numerals(a) && Numerals(b) && s == a + ":" + b {
      assert [a, b][1..] == [b];
      assert JoinWith(':', [a, b]) == a + [':'] + b;
      SplitOfJoin(':', [a, b]);
    }
  }

  /** With one more letter or escape in front, decoding goes on as before. */
  lemma {:induction false} DecodeMeans(field: string, path: string)
    ensures Decode(field) == Some(path) <==> Spelled(field, path)
    decreases |field|
  {
    if field != "" {
      var k := if field[0] == '\\' then 4 else 1;
      if k <= |field| {
        BadFirst(field, k);
        if path != "" {
          DecodeMeans(field[k..], path[1..]);
          assert path == [path[0]] + path[1..];
        }
      }
    }
  }

  lemma BadFirst(field: string, k: nat)
    requires field != "" && k == (if field[0] == '\\' then 4 else 1) && k <= |field|
    ensures BadEscape(field) <==> (field[0] == '\\' && CodeAt(field, 1).None?) || BadEscape(field[k..])
  {
    if BadEscape(field[k..]) {
      BadLater(field, k);
    }
    if BadEscape(field) && !(field[0] == '\\' && CodeAt(field, 1).None?) {
      BadRest(field, k);
    }
  }

  lemma CodeLater(field: string, k: nat, i: nat)
    requires k <= |field|
    ensures CodeAt(field, k + i + 1) == CodeAt(field[k..], i + 1)
  {
    CodeShift(field[..k], field[k..], i + 1);
    assert field == field[..k] + field[k..];
  }

  lemma BadLater(field: string, k: nat)
    requires k <= |field| && BadEscape(field[k..])
    ensures BadEscape(field)
  {
    var rest := field[k..];
    var i :| 0 <= i < |rest| && rest[i] == '\\' && CodeAt(rest, i + 1).None?;
    CodeLater(field, k, i);
    assert field[k + i] == '\\' && CodeAt(field, k + i + 1).None?;
  }

  lemma BadRest(field: string, k: nat)
    requires field != "" && k == (if field[0] == '\\' then 4 else 1) && k <= |field|
    requires BadEscape(field) && !(field[0] == '\\' && CodeAt(field, 1).None?)
    ensures BadEscape(field[k..])
  {
    var i :| 0 <= i < |field| && field[i] == '\\' && CodeAt(field, i + 1).None?;
    if k == 4 {
      CodeHasNoBackslash(field);
    }
    CodeLater(field, k, i - k);
    assert field[k..][i - k] == '\\';
  }

  lemma CodeHasNoBackslash(field: string)
    requires CodeAt(field, 1).Some?
    ensures field[1] != '\\' && field[2] != '\\' && field[3] != '\\'
  {
    var code := field[1..4];
    assert code[0] == field[1] && code[1] == field[2] && code[2] == field[3];
    assert "040"[0] == '0' && "040"[1] == '4' && "040"[2] == '0' && "011"[1] == '1' && "012"[2] == '2' && "134"[1] == '3';
  }

  lemma WordMeans(s: string)
    ensures IsToken(s) <==> IsWord(s)
  {
  }

  lemma PeerMeans(tag: string, kind: string)
    requires kind <= tag
    ensures IsPeer(tag[|kind|..]) <==> PeerFrom(tag, |kind|)
  {
    var peer := tag[|kind|..];
    assert forall i :: 0 <= i < |peer| ==> peer[i] == tag[|kind| + i];
    if PeerFrom(tag, |kind|) {
      assert forall i :: 0 <= i < |peer| ==> IsDigit(peer[i]);
    }
    if IsPeer(peer) {
      forall i | |kind| <= i < |tag|
        ensures '0' <= tag[i] <= '9'
      {
        assert tag[i] == peer[i - |kind|];
      }
    }
  }

  ghost predicate Carries(tag: string, kind: string) {
    kind <= tag && IsPeer(tag[|kind|..])
  }

  lemma CarriesMeans(tag: string, kind: string)
    ensures Carries(tag, kind) <==> kind <= tag && PeerFrom(tag, |kind|)
  {
    if kind <= tag {
      PeerMeans(tag, kind);
    }
  }

  lemma FormedMeans(tag: string)
    ensures PropagationFormed(tag)
            <==> (HasPropagation(tag) ==> Carries(tag, "shared:") || Carries(tag, "master:") || Carries(tag, "propagate_from:"))
  {
    assert forall kind :: kind in {"shared:", "master:", "propagate_from:"} ==>
             (Carries(tag, kind) <==> kind <= tag && IsPeer(tag[|kind|..]));
  }

  /** The three kinds start with three letters, so a tag is of one kind. */
  lemma KindsDiffer(tag: string)
    ensures tag == "shared" || "shared:" <= tag ==> tag != "" && tag[0] == 's'
    ensures tag == "master" || "master:" <= tag ==> tag != "" && tag[0] == 'm'
    ensures tag == "propagate_from" || "propagate_from:" <= tag ==> tag != "" && tag[0] == 'p'
    ensures tag == "shared" ==> |tag| == 6
    ensures tag == "master" ==> |tag| == 6
    ensures tag == "propagate_from" ==> |tag| == 14
  {
  }

  lemma TagMeans(tag: string)
    ensures IsToken(tag) && PropagationFormed(tag) <==> GoodTag(tag)
  {
    WordMeans(tag);
    FormedMeans(tag);
    KindsDiffer(tag);
    CarriesMeans(tag, "shared:");
    CarriesMeans(tag, "master:");
    CarriesMeans(tag, "propagate_from:");
    assert |"shared:"| == 7 && |"master:"| == 7 && |"propagate_from:"| == 15;
  }

  lemma OptionsMean(options: seq<string>)
    ensures OptionsFormed(options) <==> GoodOptions(options)
  {
    forall i | 0 <= i < |options|
      ensures IsToken(options[i]) <==> IsWord(options[i])
    {
      WordMeans(options[i]);
    }
  }

  /** The fields of a line that divides, as the parser finds them. */
  lemma FieldsMean(d: Division, id: nat, m: Mount)
    requires |d.fields| >= 6 && |d.tail| == 3 && "" !in d.fields && "" !in d.tail && SplitOn(',', d.fields[5]) == d.options
    ensures ParseFields(d.fields, d.tail) == Some((id, m))
            <==> && IsId(d.fields[0]) && Value(d.fields[0]) == id && IsId(d.fields[1]) && IsDevice(d.fields[2])
                 && (exists root :: Decode(d.fields[3]) == Some(root) && IsMountPath(root))
                 && Decode(d.fields[4]) == Some(m.point) && IsMountPath(m.point)
                 && OptionsFormed(d.options) && OptionalFormed(d.fields[6..])
                 && m == Mount(m.point, TextSet(d.options), d.fields[6..], d.fields + ["-"] + d.tail)
  {
  }

  lemma TagsMean(fields: seq<string>)
    requires |fields| >= 6
    ensures OptionalFormed(fields[6..]) <==> forall k :: 6 <= k < |fields| ==> GoodTag(fields[k])
  {
    var optional := fields[6..];
    forall i | 0 <= i < |optional|
      ensures IsToken(optional[i]) && PropagationFormed(optional[i]) <==> GoodTag(fields[6 + i])
    {
      TagMeans(optional[i]);
    }
    if OptionalFormed(optional) {
      forall k | 6 <= k < |fields|
        ensures GoodTag(fields[k])
      {
        assert optional[k - 6] == fields[k];
      }
    }
  }

  lemma PathMeans(field: string, path: string)
    ensures Decode(field) == Some(path) && IsMountPath(path) <==> GoodPath(field, path)
  {
    DecodeMeans(field, path);
  }

  lemma AllFieldsMean(d: Division, id: nat, m: Mount)
    requires |d.fields| >= 6 && |d.tail| == 3 && "" !in d.fields && "" !in d.tail && SplitOn(',', d.fields[5]) == d.options
    ensures ParseFields(d.fields, d.tail) == Some((id, m))
            <==> && GoodId(d.fields[0], id) && (exists parent :: GoodId(d.fields[1], parent)) && GoodDevice(d.fields[2])
                 && (exists root :: GoodPath(d.fields[3], root)) && GoodPath(d.fields[4], m.point) && GoodOptions(d.options)
                 && (forall k :: 6 <= k < |d.fields| ==> GoodTag(d.fields[k]))
                 && (forall o :: o in m.options <==> o in d.options)
                 && m.optional == d.fields[6..] && m.exact == d.fields + ["-"] + d.tail
  {
    FieldsMean(d, id, m);
    IdMeans(d.fields[0], id);
    ParentMeans(d.fields[1]);
    DeviceMeans(d.fields[2]);
    RootMeans(d.fields[3]);
    PathMeans(d.fields[4], m.point);
    OptionsMean(d.options);
    TagsMean(d.fields);
    assert m.options == TextSet(d.options) <==> forall o :: o in m.options <==> o in d.options;
  }

  lemma ParentMeans(s: string)
    ensures IsId(s) <==> exists n :: GoodId(s, n)
  {
    forall n: nat
      ensures IsId(s) && Value(s) == n <==> GoodId(s, n)
    {
      IdMeans(s, n);
    }
    assert IsId(s) ==> GoodId(s, Value(s));
  }

  lemma RootMeans(field: string)
    ensures (exists root :: Decode(field) == Some(root) && IsMountPath(root)) <==> exists root :: GoodPath(field, root)
  {
    forall root
      ensures Decode(field) == Some(root) && IsMountPath(root) <==> GoodPath(field, root)
    {
      PathMeans(field, root);
    }
  }

  lemma LineParsed(line: string, d: Division, id: nat, m: Mount)
    requires LineReads(line, d, id, m)
    ensures ParseLine(line) == Some((id, m))
  {
    OctetsMean(line);
    CutMeans(line, d.before, d.after);
    PiecesMean(' ', d.before, d.fields);
    PiecesMean(' ', d.after, d.tail);
    PiecesMean(',', d.fields[5], d.options);
    AllFieldsMean(d, id, m);
  }

  lemma LineDivides(line: string, id: nat, m: Mount) returns (d: Division)
    requires ParseLine(line) == Some((id, m))
    ensures Divides(line, d) && SplitOn(',', d.fields[5]) == d.options && ParseFields(d.fields, d.tail) == Some((id, m))
  {
    var halves := Cut(line);
    var before, after := halves[0], halves[1];
    var fields, tail := SplitOn(' ', before), SplitOn(' ', after);
    var options := SplitOn(',', fields[5]);
    OctetsMean(line);
    assert halves == [before, after];
    CutMeans(line, before, after);
    PiecesMean(' ', before, fields);
    PiecesMean(' ', after, tail);
    PiecesMean(',', fields[5], options);
    d := Division(before, after, fields, tail, options, 0, "");
  }

  /** The parser accepts exactly the lines of the grammar, and returns what they say. */
  lemma {:induction false} LineMeans(line: string, id: nat, m: Mount)
    ensures ParseLine(line) == Some((id, m)) <==> exists d :: LineReads(line, d, id, m)
  {
    if ParseLine(line) == Some((id, m)) {
      var d := LineDivides(line, id, m);
      AllFieldsMean(d, id, m);
      var parent :| GoodId(d.fields[1], parent);
      var root :| GoodPath(d.fields[3], root);
      assert LineReads(line, d.(parent := parent, root := root), id, m);
    }
    if d :| LineReads(line, d, id, m) {
      LineParsed(line, d, id, m);
    }
  }
}
