/** Splitting text at a separator character and joining it again. */
module Text {

  /** `s.split(sep)`: at least one piece, none of which holds the separator. */
  function SplitOn(sep: char, s: string): (pieces: seq<string>)
    ensures |pieces| >= 1 && forall p :: p in pieces ==> sep !in p
  {
    if s == "" then [""]
    else
      var rest := SplitOn(sep, s[1..]);
      if s[0] == sep then [""] + rest else [[s[0]] + rest[0]] + rest[1..]
  }

  /** `sep.join(pieces)`. */
  function JoinWith(sep: char, pieces: seq<string>): string {
    if |pieces| == 0 then ""
    else if |pieces| == 1 then pieces[0]
    else pieces[0] + [sep] + JoinWith(sep, pieces[1..])
  }

  lemma {:induction false} JoinOfSplit(sep: char, s: string)
    ensures JoinWith(sep, SplitOn(sep, s)) == s
  {
    if s != "" {
      JoinOfSplit(sep, s[1..]);
      var rest := SplitOn(sep, s[1..]);
      if s[0] == sep {
        assert ([""] + rest)[1..] == rest;
      } else {
        assert ([[s[0]] + rest[0]] + rest[1..])[1..] == rest[1..];
      }
      assert s == [s[0]] + s[1..];
    }
  }

  lemma {:induction false} SplitOfJoin(sep: char, pieces: seq<string>)
    requires |pieces| >= 1 && forall p :: p in pieces ==> sep !in p
    ensures SplitOn(sep, JoinWith(sep, pieces)) == pieces
  {
    if |pieces| == 1 {
      SplitPlain(sep, pieces[0]);
    } else {
      SplitOfJoin(sep, pieces[1..]);
      SplitFirst(sep, pieces[0], JoinWith(sep, pieces[1..]));
    }
  }

  lemma {:induction false} SplitPlain(sep: char, p: string)
    requires sep !in p
    ensures SplitOn(sep, p) == [p]
  {
    if p != "" {
      SplitPlain(sep, p[1..]);
      assert p == [p[0]] + p[1..];
    }
  }

  /** The first separator ends the first piece. */
  lemma {:induction false} SplitFirst(sep: char, p: string, rest: string)
    requires sep !in p
    ensures SplitOn(sep, p + [sep] + rest) == [p] + SplitOn(sep, rest)
  {
    var s := p + [sep] + rest;
    if p == "" {
      assert s[1..] == rest;
    } else {
      SplitFirst(sep, p[1..], rest);
      assert s[1..] == p[1..] + [sep] + rest;
      assert p == [p[0]] + p[1..];
    }
  }

  /** White space as `String.prototype.trim` removes it. */
  predicate IsSpace(c: char) {
    || '\t' <= c <= '\r' || c == ' ' || c == '\U{00A0}' || c == '\U{1680}' || '\U{2000}' <= c <= '\U{200A}'
    || c in {'\U{2028}', '\U{2029}', '\U{202F}', '\U{205F}', '\U{3000}', '\U{FEFF}'}
  }

  /** The white space and line terminators of ECMAScript, by code point. */
  ghost predicate WhiteSpace(c: char) {
    var n := c as int;
    || n == 9 || n == 10 || n == 11 || n == 12 || n == 13 || n == 32 || n == 160 || n == 5760 || 8192 <= n <= 8202
    || n == 8232 || n == 8233 || n == 8239 || n == 8287 || n == 12288 || n == 65279
  }

  lemma SpacesMean(c: char)
    ensures IsSpace(c) <==> WhiteSpace(c)
  {
  }

  ghost predicate AllWhite(s: string) {
    forall i :: 0 <= i < |s| ==> WhiteSpace(s[i])
  }

  lemma BlanksMean(s: string)
    ensures IsBlank(s) <==> AllWhite(s)
  {
    forall i | 0 <= i < |s|
      ensures IsSpace(s[i]) <==> WhiteSpace(s[i])
    {
      SpacesMean(s[i]);
    }
  }

  predicate IsBlank(s: string) {
    forall i :: 0 <= i < |s| ==> IsSpace(s[i])
  }

  // Decimal numbers.

  function Digits(n: nat): string {
    if n < 10 then [('0' as int + n) as char] else Digits(n / 10) + [('0' as int + n % 10) as char]
  }

  predicate IsDigit(c: char) {
    '0' <= c <= '9'
  }

  function DigitValue(c: char): nat {
    if IsDigit(c) then c as int - '0' as int else 0
  }

  function Value(s: string): nat {
    if s == [] then 0 else 10 * Value(s[..|s| - 1]) + DigitValue(s[|s| - 1])
  }

  lemma {:induction false} DigitsValue(n: nat)
    ensures Value(Digits(n)) == n
    ensures forall i :: 0 <= i < |Digits(n)| ==> IsDigit(Digits(n)[i])
    ensures |Digits(n)| >= 1 && (n > 0 ==> Digits(n)[0] != '0')
  {
    if n >= 10 {
      DigitsValue(n / 10);
      assert Digits(n)[..|Digits(n)| - 1] == Digits(n / 10);
    } else {
      assert Digits(n)[..0] == [];
    }
  }

  /** A number below `10^k` has at most `k` digits. */
  lemma {:induction false} DigitsLength(n: nat, k: nat)
    requires k >= 1 && n < Power10(k)
    ensures |Digits(n)| <= k
  {
    if n >= 10 {
      if k > 1 {
        DigitsLength(n / 10, k - 1);
      }
    }
  }

  function Power10(k: nat): nat {
    if k == 0 then 1 else 10 * Power10(k - 1)
  }
}
