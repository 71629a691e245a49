/** `readLines`: newline-delimited lines from a stream that may be cut anywhere. */
module LineReader {
  import opened Text
  import opened Picking

  function Concat(chunks: seq<string>): string {
    if chunks == [] then "" else Concat(chunks[..|chunks| - 1]) + chunks[|chunks| - 1]
  }

  function Nonblank(pieces: seq<string>): seq<string> {
    if pieces == [] then []
    else Nonblank(pieces[..|pieces| - 1]) + if IsBlank(pieces[|pieces| - 1]) then [] else [pieces[|pieces| - 1]]
  }

  /** `buffer.indexOf("\n")`. */
  method IndexOfNewline(buffer: string) returns (nl: int)
    ensures nl == -1 ==> '\n' !in buffer
    ensures nl != -1 ==> 0 <= nl < |buffer| && buffer[nl] == '\n' && '\n' !in buffer[..nl]
  {
    nl := 0;
    while nl < |buffer|
      invariant 0 <= nl <= |buffer| && '\n' !in buffer[..nl]
    {
      if buffer[nl] == '\n' {
        return;
      }
      assert buffer[..nl + 1] == buffer[..nl] + [buffer[nl]];
      nl := nl + 1;
    }
    assert buffer[..nl] == buffer;
    nl := -1;
  }

  lemma NonblankOne(pieces: seq<string>, p: string)
    ensures Nonblank(pieces + [p]) == if IsBlank(p) then Nonblank(pieces) else Nonblank(pieces) + [p]
  {
    assert (pieces + [p])[..|pieces|] == pieces;
    assert Nonblank(pieces) + [] == Nonblank(pieces);
  }

  /** Whatever follows, the text so far is the pieces already handed over and then what the buffer still holds. */
  ghost predicate Consumed(text: string, pieces: seq<string>, buffer: string) {
    forall rest :: SplitOn('\n', text + rest) == pieces + SplitOn('\n', buffer + rest)
  }

  /** The pieces between newlines: joined by newlines they are the text, and none holds one. */
  ghost predicate Pieces(text: string, pieces: seq<string>) {
    pieces != [] && text == JoinWith('\n', pieces) && forall p :: p in pieces ==> '\n' !in p
  }

  /** Some character is no white space. */
  ghost function Inked(): string -> bool {
    (p: string) => exists i :: 0 <= i < |p| && !WhiteSpace(p[i])
  }

  lemma InkedMeans(p: string)
    ensures Inked()(p) <==> !IsBlank(p)
  {
    BlanksMean(p);
  }

  lemma {:induction false} NonblankPicked(keep: string -> bool, pieces: seq<string>)
    requires forall p {:trigger keep(p)} :: keep(p) <==> !IsBlank(p)
    ensures Picked(pieces, keep, Nonblank(pieces))
  {
    if pieces == [] {
      PickedNone(keep);
    } else {
      var front, last := pieces[..|pieces| - 1], pieces[|pieces| - 1];
      NonblankPicked(keep, front);
      PickedMore(front, keep, Nonblank(front), last);
      assert pieces == front + [last];
    }
  }

  lemma InkedPicked(pieces: seq<string>)
    ensures Picked(pieces, Inked(), Nonblank(pieces))
  {
    forall p
      ensures Inked()(p) <==> !IsBlank(p)
    {
      InkedMeans(p);
    }
    NonblankPicked(Inked(), pieces);
  }

  /**
    * However the text is cut into chunks, the lines handed over are the nonblank pieces of the whole
    * text between newlines, in order.
    */
  method ReadLines(chunks: seq<string>) returns (lines: seq<string>)
    ensures lines == Nonblank(SplitOn('\n', Concat(chunks)))
    ensures exists pieces :: Pieces(Concat(chunks), pieces) && Picked(pieces, Inked(), lines)
  {
    var buffer := "";
    lines := [];
    ghost var pieces: seq<string> := [];
    for i := 0 to |chunks|
      invariant Consumed(Concat(chunks[..i]), pieces, buffer) && '\n' !in buffer
      invariant lines == Nonblank(pieces)
    {
      ghost var text := Concat(chunks[..i + 1]);
      ChunkArrives(chunks, i, pieces, buffer);
      buffer := buffer + chunks[i];
      var nl := IndexOfNewline(buffer);
      while nl >= 0
        invariant Consumed(text, pieces, buffer) && lines == Nonblank(pieces)
        invariant nl == -1 ==> '\n' !in buffer
        invariant nl != -1 ==> 0 <= nl < |buffer| && buffer[nl] == '\n' && '\n' !in buffer[..nl]
        decreases |buffer|, nl
      {
        var line := buffer[..nl];
        LineLeaves(text, pieces, buffer, nl);
        buffer := buffer[nl + 1..];
        NonblankOne(pieces, line);
        if !IsBlank(line) {
          lines := lines + [line];
        }
        pieces := pieces + [line];
        nl := IndexOfNewline(buffer);
      }
    }
    assert chunks[..|chunks|] == chunks;
    assert Concat(chunks) + "" == Concat(chunks) && buffer + "" == buffer;
    SplitPlain('\n', buffer);
    NonblankOne(pieces, buffer);
    if !IsBlank(buffer) {
      lines := lines + [buffer];
    }
    JoinOfSplit('\n', Concat(chunks));
    InkedPicked(SplitOn('\n', Concat(chunks)));
    assert Pieces(Concat(chunks), SplitOn('\n', Concat(chunks)));
  }

  lemma ChunkArrives(chunks: seq<string>, i: nat, pieces: seq<string>, buffer: string)
    requires i < |chunks| && Consumed(Concat(chunks[..i]), pieces, buffer)
    ensures Consumed(Concat(chunks[..i + 1]), pieces, buffer + chunks[i])
  {
    var text, chunk := Concat(chunks[..i]), chunks[i];
    assert chunks[..i + 1][..i] == chunks[..i];
    forall rest
      ensures SplitOn('\n', text + chunk + rest) == pieces + SplitOn('\n', buffer + chunk + rest)
    {
      assert text + chunk + rest == text + (chunk + rest);
      assert buffer + chunk + rest == buffer + (chunk + rest);
    }
  }

  lemma LineLeaves(text: string, pieces: seq<string>, buffer: string, nl: nat)
    requires Consumed(text, pieces, buffer) && nl < |buffer| && buffer[nl] == '\n' && '\n' !in buffer[..nl]
    ensures Consumed(text, pieces + [buffer[..nl]], buffer[nl + 1..])
  {
    var line, left := buffer[..nl], buffer[nl + 1..];
    forall rest
      ensures SplitOn('\n', text + rest) == pieces + [line] + SplitOn('\n', left + rest)
    {
      assert buffer + rest == line + ['\n'] + (left + rest);
      SplitFirst('\n', line, left + rest);
    }
  }
}
