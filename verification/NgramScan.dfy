/** The verbatim-overlap scan of `checkNgrams`: maximal runs of words whose every window occurs in the haystack. */
module NgramScan {

  const NGRAM := 12

  type Words = seq<string>

  /** A run of `words` words from word `start` of block `block`. */
  datatype Run = Run(block: nat, start: nat, words: nat) {
    function End(): nat {
      start + words
    }
  }

  /** The window that starts at word `i`. */
  function Window(words: Words, i: nat): Words
    requires i + NGRAM <= |words|
  {
    words[i..i + NGRAM]
  }

  /** Some window of `hay` equals `w`. */
  ghost predicate Occurs(hay: Words, w: Words) {
    exists i: nat :: i + NGRAM <= |hay| && Window(hay, i) == w
  }

  /** The window at `i` exists and occurs in the haystack whose windows are `grams`. */
  predicate Shared(words: Words, grams: set<Words>, i: nat) {
    i + NGRAM <= |words| && Window(words, i) in grams
  }

  method Grams(hay: Words) returns (grams: set<Words>)
    ensures forall w :: w in grams <==> Occurs(hay, w)
  {
    grams := {};
    var i := 0;
    while i + NGRAM <= |hay|
      invariant forall w :: w in grams <==> exists k: nat :: k < i && k + NGRAM <= |hay| && Window(hay, k) == w
    {
      grams := grams + {Window(hay, i)};
      i := i + 1;
    }
  }

  /** All windows inside the run are shared, and it cannot be extended to the right. */
  ghost predicate IsRun(words: Words, grams: set<Words>, r: Run) {
    && NGRAM <= r.words && r.End() <= |words|
    && (forall i :: r.start <= i <= r.End() - NGRAM ==> Shared(words, grams, i))
    && !Shared(words, grams, r.End() + 1 - NGRAM)
  }

  ghost predicate Starts(runs: seq<Run>, i: int) {
    exists k :: 0 <= k < |runs| && runs[k].start <= i < runs[k].End()
  }

  /** The runs of one block: disjoint and in order, each a maximal run, and every shared window starts inside one. */
  ghost predicate AreRuns(words: Words, grams: set<Words>, runs: seq<Run>, upTo: nat) {
    && (forall k :: 0 <= k < |runs| ==> IsRun(words, grams, runs[k]) && runs[k].End() <= upTo)
    && (forall j, k :: 0 <= j < k < |runs| ==> runs[j].End() <= runs[k].start)
    && forall i: nat :: i < upTo && Shared(words, grams, i) ==> Starts(runs, i)
  }

  /** The greedy extension of a shared window to the right. */
  method Extend(words: Words, grams: set<Words>, i: nat) returns (len: nat)
    requires Shared(words, grams, i)
    ensures IsRun(words, grams, Run(0, i, len))
  {
    len := NGRAM;
    while i + len < |words| && Window(words, i + len + 1 - NGRAM) in grams
      invariant NGRAM <= len && i + len <= |words|
      invariant forall k :: i <= k <= i + len - NGRAM ==> Shared(words, grams, k)
    {
      len := len + 1;
    }
  }

  /** The scan of one block. */
  method ScanBlock(block: nat, words: Words, grams: set<Words>) returns (runs: seq<Run>)
    ensures AreRuns(words, grams, runs, |words|)
    ensures forall k :: 0 <= k < |runs| ==> runs[k].block == block
  {
    runs := [];
    var i := 0;
    while i + NGRAM <= |words|
      invariant i <= |words| && AreRuns(words, grams, runs, i)
      invariant forall k :: 0 <= k < |runs| ==> runs[k].block == block
      decreases |words| - i
    {
      if Window(words, i) !in grams {
        i := i + 1;
      } else {
        var len := Extend(words, grams, i);
        RunAppended(words, grams, runs, i, Run(block, i, len));
        runs := runs + [Run(block, i, len)];
        i := i + len;
      }
    }
  }

  lemma RunAppended(words: Words, grams: set<Words>, runs: seq<Run>, i: nat, r: Run)
    requires AreRuns(words, grams, runs, i) && r.start == i && IsRun(words, grams, r)
    ensures AreRuns(words, grams, runs + [r], r.End())
  {
    var more := runs + [r];
    forall j: nat | j < r.End() && Shared(words, grams, j)
      ensures Starts(more, j)
    {
      if j < i {
        var k :| 0 <= k < |runs| && runs[k].start <= j < runs[k].End();
        assert more[k] == runs[k];
      } else {
        assert more[|runs|] == r;
      }
    }
  }

  /** A block has no run exactly when it shares no window, and every shared window meets some run. */
  lemma RunsMissNothing(words: Words, grams: set<Words>, runs: seq<Run>)
    requires AreRuns(words, grams, runs, |words|)
    ensures runs == [] <==> forall i: nat :: !Shared(words, grams, i)
    ensures forall i: nat :: Shared(words, grams, i) ==> Starts(runs, i)
  {
    if runs != [] {
      assert Shared(words, grams, runs[0].start);
    }
  }

  /** The properties of a block's runs leave no choice: there is only one such list. */
  lemma {:induction false} RunsAreUnique(words: Words, grams: set<Words>, a: seq<Run>, b: seq<Run>, k: nat)
    requires AreRuns(words, grams, a, |words|) && AreRuns(words, grams, b, |words|)
    requires k <= |a|
    ensures k <= |b| && forall j :: 0 <= j < k ==> a[j].start == b[j].start && a[j].words == b[j].words
  {
    if k > 0 {
      RunsAreUnique(words, grams, a, b, k - 1);
      NextRunExists(words, grams, a, b, k - 1);
      SameRun(words, grams, a, b, k - 1);
    }
  }

  /** After equal runs, a further run on one side means a further run on the other, at the same place. */
  lemma NextRunExists(words: Words, grams: set<Words>, a: seq<Run>, b: seq<Run>, k: nat)
    requires AreRuns(words, grams, a, |words|) && AreRuns(words, grams, b, |words|)
    requires k < |a| && k <= |b| && forall j :: 0 <= j < k ==> a[j].start == b[j].start && a[j].words == b[j].words
    ensures k < |b| && b[k].start <= a[k].start
  {
    var i := a[k].start;
    assert IsRun(words, grams, a[k]) && Shared(words, grams, i);
    assert Starts(b, i);
    var m :| 0 <= m < |b| && b[m].start <= i < b[m].End();
    assert m >= k;
    if m > k {
      InOrder(words, grams, b, k, m);
    }
  }

  lemma InOrder(words: Words, grams: set<Words>, runs: seq<Run>, j: nat, k: nat)
    requires AreRuns(words, grams, runs, |words|) && j < k < |runs|
    ensures runs[j].End() <= runs[k].start && runs[j].start < runs[k].start
  {
    assert IsRun(words, grams, runs[j]);
  }

  lemma SameRun(words: Words, grams: set<Words>, a: seq<Run>, b: seq<Run>, k: nat)
    requires AreRuns(words, grams, a, |words|) && AreRuns(words, grams, b, |words|)
    requires k < |a| && k < |b| && forall j :: 0 <= j < k ==> a[j].start == b[j].start && a[j].words == b[j].words
    ensures a[k].start == b[k].start && a[k].words == b[k].words
  {
    NextRunExists(words, grams, a, b, k);
    NextRunExists(words, grams, b, a, k);
    var x, y := a[k], b[k];
    assert IsRun(words, grams, x) && IsRun(words, grams, y);
    var p: nat, q: nat := x.End() + 1 - NGRAM, y.End() + 1 - NGRAM;
    assert !Shared(words, grams, p) && !Shared(words, grams, q);
  }

  // The whole scan, in terms of the words.

  /** The twelve words from word `i` of the block stand somewhere in the haystack. */
  ghost predicate Reproduces(hay: Words, words: Words, i: nat) {
    exists j: nat :: SameTwelve(hay, j, words, i)
  }

  ghost predicate SameTwelve(hay: Words, j: nat, words: Words, i: nat) {
    j + 12 <= |hay| && i + 12 <= |words| && hay[j..j + 12] == words[i..i + 12]
  }

  /** The runs of a block: in order and apart, reproduced throughout, as long as they can be, and with every reproduced place in one. */
  ghost predicate BlockRuns(hay: Words, block: nat, words: Words, runs: seq<Run>) {
    && (forall k :: 0 <= k < |runs| ==> runs[k].block == block && 12 <= runs[k].words && runs[k].start + runs[k].words <= |words|)
    && (forall k, i: nat :: 0 <= k < |runs| && runs[k].start <= i <= runs[k].start + runs[k].words - 12 ==> Reproduces(hay, words, i))
    && (forall k :: 0 <= k < |runs| ==> !Reproduces(hay, words, runs[k].start + runs[k].words - 11))
    && (forall j, k :: 0 <= j < k < |runs| ==> runs[j].start + runs[j].words <= runs[k].start)
    && forall i: nat :: Reproduces(hay, words, i) ==> exists k :: 0 <= k < |runs| && runs[k].start <= i < runs[k].start + runs[k].words
  }

  ghost function Flat(found: seq<seq<Run>>): seq<Run> {
    if found == [] then [] else Flat(found[..|found| - 1]) + found[|found| - 1]
  }

  /** The runs of all blocks, block after block. */
  ghost predicate AllRuns(hay: Words, blocks: seq<Words>, found: seq<seq<Run>>) {
    |found| == |blocks| && forall b :: 0 <= b < |blocks| ==> BlockRuns(hay, b, blocks[b], found[b])
  }

  lemma SharedMeans(hay: Words, grams: set<Words>, words: Words, i: nat)
    requires forall w :: w in grams <==> Occurs(hay, w)
    ensures Shared(words, grams, i) <==> Reproduces(hay, words, i)
  {
    if Reproduces(hay, words, i) {
      var j: nat :| SameTwelve(hay, j, words, i);
      assert Window(hay, j) == Window(words, i);
    }
    if Shared(words, grams, i) {
      var j: nat :| j + NGRAM <= |hay| && Window(hay, j) == Window(words, i);
      assert SameTwelve(hay, j, words, i);
    }
  }

  lemma RunsMean(hay: Words, grams: set<Words>, block: nat, words: Words, runs: seq<Run>)
    requires forall w :: w in grams <==> Occurs(hay, w)
    requires AreRuns(words, grams, runs, |words|) && forall k :: 0 <= k < |runs| ==> runs[k].block == block
    ensures BlockRuns(hay, block, words, runs)
  {
    forall i: nat
      ensures Shared(words, grams, i) <==> Reproduces(hay, words, i)
    {
      SharedMeans(hay, grams, words, i);
    }
    forall k | 0 <= k < |runs|
      ensures !Reproduces(hay, words, runs[k].start + runs[k].words - 11)
    {
      assert IsRun(words, grams, runs[k]);
      SharedMeans(hay, grams, words, runs[k].start + runs[k].words - 11);
    }
    forall i: nat | Reproduces(hay, words, i)
      ensures exists k :: 0 <= k < |runs| && runs[k].start <= i < runs[k].start + runs[k].words
    {
      assert Starts(runs, i);
    }
  }

  lemma FlatMore(found: seq<seq<Run>>, more: seq<Run>)
    ensures Flat(found + [more]) == Flat(found) + more
  {
    assert (found + [more])[..|found|] == found;
  }

  lemma OneBlockMore(hay: Words, blocks: seq<Words>, b: nat, found: seq<seq<Run>>, more: seq<Run>)
    requires b < |blocks| && AllRuns(hay, blocks[..b], found) && BlockRuns(hay, b, blocks[b], more)
    ensures AllRuns(hay, blocks[..b + 1], found + [more])
  {
    forall c | 0 <= c < b + 1
      ensures BlockRuns(hay, c, blocks[..b + 1][c], (found + [more])[c])
    {
      assert c < b ==> blocks[..b][c] == blocks[..b + 1][c];
    }
  }

  /** A block without runs reproduces nothing, and the other way round. */
  lemma NoRunsMeans(hay: Words, b: nat, words: Words, runs: seq<Run>)
    requires BlockRuns(hay, b, words, runs)
    ensures runs == [] <==> forall i: nat :: !Reproduces(hay, words, i)
  {
    if runs != [] {
      assert Reproduces(hay, words, runs[0].start);
    }
  }

  lemma {:induction false} FlatEmpty(found: seq<seq<Run>>)
    ensures Flat(found) == [] <==> forall b :: 0 <= b < |found| ==> found[b] == []
  {
    if found != [] {
      var front, last := found[..|found| - 1], found[|found| - 1];
      FlatEmpty(front);
      assert Flat(found) == [] <==> Flat(front) == [] && last == [];
      assert forall b :: 0 <= b < |front| ==> front[b] == found[b];
    }
  }

  /** Nothing is reported exactly when no block reproduces a window. */
  lemma SilenceMeans(hay: Words, blocks: seq<Words>, found: seq<seq<Run>>)
    requires AllRuns(hay, blocks, found)
    ensures Flat(found) == [] <==> forall b, i: nat :: 0 <= b < |blocks| ==> !Reproduces(hay, blocks[b], i)
  {
    FlatEmpty(found);
    forall b | 0 <= b < |blocks|
      ensures found[b] == [] <==> forall i: nat :: !Reproduces(hay, blocks[b], i)
    {
      NoRunsMeans(hay, b, blocks[b], found[b]);
    }
  }

  /** The whole scan: the runs of every block, block after block. */
  method CheckNgrams(hay: Words, blocks: seq<Words>) returns (runs: seq<Run>)
    ensures exists found :: AllRuns(hay, blocks, found) && runs == Flat(found)
    ensures runs == [] <==> forall b, i: nat :: 0 <= b < |blocks| ==> !Reproduces(hay, blocks[b], i)
  {
    var grams := Grams(hay);
    runs := [];
    ghost var found: seq<seq<Run>> := [];
    for b := 0 to |blocks|
      invariant runs == Flat(found) && AllRuns(hay, blocks[..b], found)
    {
      var more := ScanBlock(b, blocks[b], grams);
      RunsMean(hay, grams, b, blocks[b], more);
      FlatMore(found, more);
      OneBlockMore(hay, blocks, b, found, more);
      runs := runs + more;
      found := found + [more];
    }
    assert blocks[..|blocks|] == blocks;
    SilenceMeans(hay, blocks, found);
  }
}
