/** `parseKeychainRef` and the locator that `runLogin` prints for it to read back. */
module KeychainLocator {
  import opened Outcome
  import opened Text

  const PREFIX := "keychain:"

  /** A stored credential; without a service the default one is meant. */
  datatype Ref = Ref(account: string, service: Option<string>)

  // String.prototype.trim.

  function TrimStart(s: string): string {
    if s != "" && IsSpace(s[0]) then TrimStart(s[1..]) else s
  }

  function TrimEnd(s: string): string {
    if s != "" && IsSpace(s[|s| - 1]) then TrimEnd(s[..|s| - 1]) else s
  }

  function Trim(s: string): string {
    TrimEnd(TrimStart(s))
  }

  predicate Trimmed(s: string) {
    s == "" || (!IsSpace(s[0]) && !IsSpace(s[|s| - 1]))
  }

  /** `s.indexOf(c)`, with the length of `s` for a character that is not there. */
  function IndexOf(s: string, c: char): (i: nat)
    ensures i <= |s| && c !in s[..i] && (i < |s| ==> s[i] == c)
  {
    if s == "" || s[0] == c then 0
    else
      var i := IndexOf(s[1..], c) + 1;
      assert s[..i] == [s[0]] + s[1..][..i - 1];
      i
  }

  function ParseRest(rest: string): Option<Ref> {
    if rest == "" || rest[0] == '/' then None
    else
      var slash := IndexOf(rest, '/');
      if slash < |rest| && ':' !in rest[..slash] then
        var service := Trim(rest[..slash]);
        var account := Trim(rest[slash + 1..]);
        if service == "" || account == "" then None else Some(Ref(account, Some(service)))
      else Some(Ref(rest, None))
  }

  function ParseKeychainRef(raw: string): Option<Ref> {
    var value := Trim(raw);
    if PREFIX <= value then ParseRest(Trim(value[|PREFIX|..])) else None
  }

  /** The text after `keychain:` in the line `runLogin` prints. */
  function Locator(ref: Ref): string {
    if ref.service.None? then ref.account else ref.service.value + "/" + ref.account
  }

  function Print(ref: Ref): string {
    PREFIX + Locator(ref)
  }

  /** The refs that survive the printed form. */
  predicate Printable(ref: Ref) {
    && ref.account != "" && Trimmed(ref.account)
    && match ref.service
       case Some(service) => service != "" && Trimmed(service) && ':' !in service && '/' !in service
       case None => ref.account[0] != '/' && ('/' in ref.account ==> ':' in ref.account[..IndexOf(ref.account, '/')])
  }

  /** The whole grammar: a printable ref, with blanks allowed around every part. */
  ghost predicate Spells(raw: string, ref: Ref) {
    Printable(ref) && exists around: Blanks :: around.Valid() && raw == Spelling(around, ref)
  }

  /** The white space of one spelling; the slash has none around it where there is no service. */
  datatype Blanks = Blanks(first: string, lead: string, before: string, after: string, last: string) {
    ghost predicate Valid() {
      IsBlank(first) && IsBlank(lead) && IsBlank(before) && IsBlank(after) && IsBlank(last)
    }
  }

  ghost function Spelling(b: Blanks, ref: Ref): string {
    b.first + ("keychain:" + (b.lead + Body(b, ref))) + b.last
  }

  ghost function Body(b: Blanks, ref: Ref): string {
    if ref.service.None? then ref.account else (ref.service.value + b.before) + "/" + (b.after + ref.account)
  }

  // Trimming.

  lemma {:induction false} TrimStartSplits(s: string) returns (a: string)
    ensures IsBlank(a) && s == a + TrimStart(s) && (TrimStart(s) != "" ==> !IsSpace(TrimStart(s)[0]))
  {
    if s != "" && IsSpace(s[0]) {
      var rest := TrimStartSplits(s[1..]);
      a := [s[0]] + rest;
      assert s == [s[0]] + s[1..];
    } else {
      a := "";
    }
  }

  lemma {:induction false} TrimEndSplits(s: string) returns (b: string)
    ensures IsBlank(b) && s == TrimEnd(s) + b && (TrimEnd(s) != "" ==> !IsSpace(TrimEnd(s)[|TrimEnd(s)| - 1]))
  {
    if s != "" && IsSpace(s[|s| - 1]) {
      var rest := TrimEndSplits(s[..|s| - 1]);
      b := rest + [s[|s| - 1]];
      assert s == s[..|s| - 1] + [s[|s| - 1]];
    } else {
      b := "";
    }
  }

  lemma TrimSplits(s: string) returns (a: string, b: string)
    ensures IsBlank(a) && IsBlank(b) && s == a + Trim(s) + b && Trimmed(Trim(s))
  {
    a := TrimStartSplits(s);
    b := TrimEndSplits(TrimStart(s));
    assert Trim(s) != "" ==> Trim(s)[0] == TrimStart(s)[0];
  }

  lemma {:induction false} TrimStartOf(a: string, x: string)
    requires IsBlank(a) && (x != "" ==> !IsSpace(x[0]))
    ensures TrimStart(a + x) == x
  {
    if a == "" {
      assert a + x == x;
    } else {
      assert (a + x)[1..] == a[1..] + x;
      TrimStartOf(a[1..], x);
    }
  }

  lemma {:induction false} TrimEndOf(x: string, b: string)
    requires IsBlank(b) && (x != "" ==> !IsSpace(x[|x| - 1]))
    ensures TrimEnd(x + b) == x
  {
    if b == "" {
      assert x + b == x;
    } else {
      assert (x + b)[..|x + b| - 1] == x + b[..|b| - 1];
      TrimEndOf(x, b[..|b| - 1]);
    }
  }

  /** Blanks around a trimmed, nonempty text are all that trimming removes. */
  lemma TrimOf(a: string, x: string, b: string)
    requires IsBlank(a) && IsBlank(b) && Trimmed(x) && x != ""
    ensures Trim(a + x + b) == x
  {
    assert a + x + b == a + (x + b);
    TrimStartOf(a, x + b);
    TrimEndOf(x, b);
  }

  lemma {:induction false} FirstIndex(p: string, c: char, q: string)
    requires c !in p
    ensures IndexOf(p + [c] + q, c) == |p|
  {
    if p != "" {
      assert (p + [c] + q)[1..] == p[1..] + [c] + q;
      FirstIndex(p[1..], c, q);
    }
  }

  // Reading back.

  lemma NoMarkInBlank(b: string)
    requires IsBlank(b)
    ensures ':' !in b && '/' !in b
  {
  }

  lemma BodyParses(b: Blanks, ref: Ref)
    requires b.Valid() && Printable(ref)
    ensures ParseRest(Body(b, ref)) == Some(ref)
  {
    if ref.service.Some? {
      var s, t := ref.service.value + b.before, b.after + ref.account;
      var rest := s + "/" + t;
      NoMarkInBlank(b.before);
      FirstIndex(s, '/', t);
      assert rest[..|s|] == s && rest[|s| + 1..] == t;
      assert s == "" + ref.service.value + b.before && t == b.after + ref.account + "";
      TrimOf("", ref.service.value, b.before);
      TrimOf(b.after, ref.account, "");
      assert rest[0] == ref.service.value[0];
    }
  }

  lemma BodyIsTrimmed(b: Blanks, ref: Ref)
    requires b.Valid() && Printable(ref)
    ensures Body(b, ref) != "" && Trimmed(Body(b, ref))
  {
    var body := Body(b, ref);
    assert body[|body| - 1] == ref.account[|ref.account| - 1];
    assert ref.service.Some? ==> body[0] == ref.service.value[0];
  }

  lemma SpellingParses(b: Blanks, ref: Ref)
    requires b.Valid() && Printable(ref)
    ensures ParseKeychainRef(Spelling(b, ref)) == Some(ref)
  {
    var body := Body(b, ref);
    BodyIsTrimmed(b, ref);
    BodyParses(b, ref);
    var value := PREFIX + (b.lead + body);
    assert value[0] == 'k' && value[|value| - 1] == body[|body| - 1];
    TrimOf(b.first, value, b.last);
    assert value[|PREFIX|..] == b.lead + body + "";
    TrimOf(b.lead, body, "");
  }

  lemma RestSpells(rest: string, ref: Ref) returns (before: string, after: string)
    requires Trimmed(rest) && ParseRest(rest) == Some(ref)
    ensures Printable(ref) && IsBlank(before) && IsBlank(after)
    ensures Body(Blanks("", "", before, after, ""), ref) == rest
  {
    before, after := "", "";
    var slash := IndexOf(rest, '/');
    assert rest[..|rest|] == rest;
    if slash < |rest| && ':' !in rest[..slash] {
      assert rest == rest[..slash] + "/" + rest[slash + 1..];
      before, after := HalvesSpell(rest[..slash], rest[slash + 1..], rest);
    }
  }

  lemma HalvesSpell(left: string, right: string, rest: string) returns (before: string, after: string)
    requires Trimmed(rest) && rest == left + "/" + right && '/' !in left && ':' !in left && left != ""
    requires Trim(left) != "" && Trim(right) != ""
    ensures IsBlank(before) && IsBlank(after) && Trimmed(Trim(left)) && Trimmed(Trim(right))
    ensures ':' !in Trim(left) && '/' !in Trim(left)
    ensures (Trim(left) + before) + "/" + (after + Trim(right)) == rest
  {
    var l, r;
    l, before := TrimSplits(left);
    after, r := TrimSplits(right);
    EdgesAreBare(left, l, before, right, after, r, rest);
  }

  lemma NoBlankInFront(l: string, y: string)
    requires IsBlank(l) && l + y != ""
    ensures !IsSpace((l + y)[0]) ==> l == ""
  {
    assert l != "" ==> (l + y)[0] == l[0];
  }

  lemma NoBlankBehind(x: string, r: string)
    requires IsBlank(r) && x + r != ""
    ensures !IsSpace((x + r)[|x + r| - 1]) ==> r == ""
  {
    assert r != "" ==> (x + r)[|x + r| - 1] == r[|r| - 1];
  }

  /** The outer blanks of the two halves of a trimmed text are empty. */
  lemma EdgesAreBare(left: string, l: string, before: string, right: string, after: string, r: string, rest: string)
    requires Trimmed(rest) && rest == left + "/" + right && '/' !in left && ':' !in left && left != ""
    requires Trim(right) != "" && Trimmed(Trim(left)) && Trimmed(Trim(right)) && Trim(left) != ""
    requires IsBlank(l) && IsBlank(r) && left == l + Trim(left) + before && right == after + Trim(right) + r
    ensures l == "" && r == ""
    ensures ':' !in Trim(left) && '/' !in Trim(left)
    ensures (Trim(left) + before) + "/" + (after + Trim(right)) == rest
  {
    BareEdges(left, l, Trim(left), before, right, after, Trim(right), r, rest);
  }

  lemma BareEdges(left: string, l: string, x: string, before: string, right: string, after: string, y: string, r: string, rest: string)
    requires Trimmed(rest) && rest == left + "/" + right && '/' !in left && ':' !in left
    requires IsBlank(l) && IsBlank(r) && left == l + x + before && right == after + y + r
    ensures l == "" && r == "" && ':' !in x && '/' !in x && (x + before) + "/" + (after + y) == rest
  {
    assert rest == l + (x + before + "/" + right) && rest == (left + "/" + after + y) + r;
    NoBlankInFront(l, x + before + "/" + right);
    NoBlankBehind(left + "/" + after + y, r);
    assert forall c :: c in x ==> c in left;
  }

  lemma ParsedIsSpelled(raw: string, ref: Ref)
    requires ParseKeychainRef(raw) == Some(ref)
    ensures Spells(raw, ref)
  {
    var first, last := TrimSplits(raw);
    var lead, rest, before, after, tail := ValueSpells(Trim(raw), ref);
    SpelledAs(raw, ref, first, lead, rest, before, after, tail, last);
  }

  lemma ValueSpells(value: string, ref: Ref) returns (lead: string, rest: string, before: string, after: string, tail: string)
    requires PREFIX <= value && ParseRest(Trim(value[|PREFIX|..])) == Some(ref)
    ensures Printable(ref) && Body(Blanks("", "", before, after, ""), ref) == rest
    ensures IsBlank(lead) && IsBlank(before) && IsBlank(after) && IsBlank(tail)
    ensures value == PREFIX + (lead + rest + tail)
  {
    var located := value[|PREFIX|..];
    rest := Trim(located);
    lead, tail := TrimSplits(located);
    before, after := RestSpells(rest, ref);
    assert value == PREFIX + located;
  }

  lemma SpelledAs(raw: string, ref: Ref, first: string, lead: string, rest: string, before: string, after: string, tail: string,
                  last: string)
    requires Printable(ref) && Body(Blanks("", "", before, after, ""), ref) == rest
    requires IsBlank(first) && IsBlank(lead) && IsBlank(before) && IsBlank(after) && IsBlank(tail) && IsBlank(last)
    requires raw == first + (PREFIX + (lead + rest + tail)) + last
    ensures Spells(raw, ref)
  {
    var around := Blanks(first, lead, before, after, tail + last);
    assert around.Valid();
    assert Body(around, ref) == rest;
    Regroup(first, PREFIX, lead, rest, tail, last);
    assert raw == Spelling(around, ref);
  }

  lemma Regroup(a: string, p: string, l: string, x: string, t: string, b: string)
    ensures a + (p + (l + x + t)) + b == a + (p + (l + x)) + (t + b)
  {
  }

  // The grammar in full.

  /** Text that starts and ends with something other than white space. */
  ghost predicate Inked(s: string) {
    s != "" && !WhiteSpace(s[0]) && !WhiteSpace(s[|s| - 1])
  }

  /**
    * A ref that can be written: inked parts, no separator in the service, and for the default service no
    * leading slash and a colon before every slash.
    */
  ghost predicate Writable(ref: Ref) {
    && Inked(ref.account)
    && match ref.service
       case Some(service) => Inked(service) && ':' !in service && '/' !in service
       case None =>
         && ref.account[0] != '/'
         && forall k :: 0 <= k < |ref.account| && ref.account[k] == '/' ==> exists j :: 0 <= j < k && ref.account[j] == ':'
  }

  /** The ref written with white space around its parts. */
  ghost predicate WrittenAs(raw: string, ref: Ref, b: Blanks) {
    && AllWhite(b.first) && AllWhite(b.lead) && AllWhite(b.before) && AllWhite(b.after) && AllWhite(b.last)
    && raw == b.first + ("keychain:" + (b.lead + Body(b, ref))) + b.last
  }

  lemma TrimmedMeans(s: string)
    ensures s != "" && Trimmed(s) <==> Inked(s)
  {
    if s != "" {
      SpacesMean(s[0]);
      SpacesMean(s[|s| - 1]);
    }
  }

  lemma ColonsMean(account: string)
    ensures ('/' in account ==> ':' in account[..IndexOf(account, '/')])
            <==> forall k :: 0 <= k < |account| && account[k] == '/' ==> exists j :: 0 <= j < k && account[j] == ':'
  {
    var first := IndexOf(account, '/');
    assert forall k :: 0 <= k < first ==> account[k] in account[..first];
    if ':' in account[..first] {
      var j :| 0 <= j < first && account[j] == ':';
      forall k | 0 <= k < |account| && account[k] == '/'
        ensures exists j :: 0 <= j < k && account[j] == ':'
      {
        assert j < k;
      }
    } else if '/' in account {
      assert first < |account| && account[first] == '/';
    }
  }

  lemma PrintableMeans(ref: Ref)
    ensures Printable(ref) <==> Writable(ref)
  {
    TrimmedMeans(ref.account);
    if ref.service.Some? {
      TrimmedMeans(ref.service.value);
    } else {
      ColonsMean(ref.account);
    }
  }

  lemma WrittenMeans(raw: string, ref: Ref, b: Blanks)
    ensures b.Valid() && raw == Spelling(b, ref) <==> WrittenAs(raw, ref, b)
  {
    BlanksMean(b.first);
    BlanksMean(b.lead);
    BlanksMean(b.before);
    BlanksMean(b.after);
    BlanksMean(b.last);
  }

  /** The parser accepts exactly the spellings of writable refs, and reads the ref that was spelled. */
  lemma ParsesExactly(raw: string, ref: Ref)
    ensures ParseKeychainRef(raw) == Some(ref) <==> Spells(raw, ref)
    ensures ParseKeychainRef(raw) == Some(ref) <==> Writable(ref) && exists b :: WrittenAs(raw, ref, b)
  {
    PrintableMeans(ref);
    forall b: Blanks
      ensures b.Valid() && raw == Spelling(b, ref) <==> WrittenAs(raw, ref, b)
    {
      WrittenMeans(raw, ref, b);
    }
    if ParseKeychainRef(raw) == Some(ref) {
      ParsedIsSpelled(raw, ref);
    } else if Spells(raw, ref) {
      var around: Blanks :| around.Valid() && raw == Spelling(around, ref);
      SpellingParses(around, ref);
    }
  }

  /** What is printed reads back as the same ref exactly for the writable ones. */
  lemma {:induction false} PrintedReadsBack(ref: Ref)
    ensures ParseKeychainRef(Print(ref)) == Some(ref) <==> Writable(ref)
  {
    PrintableMeans(ref);
    if Printable(ref) {
      var bare := Blanks("", "", "", "", "");
      assert Spelling(bare, ref) == Print(ref);
      SpellingParses(bare, ref);
    } else {
      ParsesExactly(Print(ref), ref);
    }
  }

  /** So printing a parsed ref and parsing again changes nothing, whatever the text was. */
  lemma ParsePrintParse(raw: string)
    ensures var ref := ParseKeychainRef(raw);
            ref.Some? ==> ParseKeychainRef(Print(ref.value)) == ref
  {
    var ref := ParseKeychainRef(raw);
    if ref.Some? {
      ParsesExactly(raw, ref.value);
      PrintedReadsBack(ref.value);
    }
  }

  /** A ref with a slash but no colon before it is read as a service the writer never named. */
  lemma SlashedAccountIsMisread()
    ensures ParseKeychainRef(Print(Ref("u/1", None))) == Some(Ref("1", Some("u")))
  {
    var bare := Blanks("", "", "", "", "");
    var ref := Ref("1", Some("u"));
    assert Spelling(bare, ref) == Print(Ref("u/1", None));
    SpellingParses(bare, ref);
  }
}
