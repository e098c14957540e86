/** The speech-output chunker: text is cut at Japanese sentence punctuation
    and newlines (keeping the delimiters, as `split` with a capturing group
    does) and the pieces are packed greedily into chunks shorter than 50
    UTF-16 code units, to work around the truncation of long utterances on iOS. */
module Chunker {
  import opened Text

  /** Chunks are kept strictly below this many UTF-16 code units, unless a
      single piece is already longer. */
  const MaxChunkUnits: nat := 50

  /** The delimiter class `[。、！？\n]` (the exclamation and question marks are
      the full-width forms U+FF01 and U+FF1F). */
  predicate IsBreak(c: char) {
    c == '\U{3002}' || c == '\U{3001}' || c == '\U{FF01}' || c == '\U{FF1F}' || c == '\n'
  }

  predicate NoBreak(s: string) {
    forall i | 0 <= i < |s| :: !IsBreak(s[i])
  }

  /** Concatenation of a sequence of strings, in order. */
  function Flatten(ss: seq<string>): string {
    if ss == [] then [] else ss[0] + Flatten(ss[1..])
  }

  lemma {:induction false} FlattenAppend(a: seq<string>, b: seq<string>)
    ensures Flatten(a + b) == Flatten(a) + Flatten(b)
  {
    if a == [] {
      assert a + b == b;
    } else {
      assert (a + b)[1..] == a[1..] + b;
      FlattenAppend(a[1..], b);
    }
  }

  lemma FlattenSingleton(ss: seq<string>)
    ensures |ss| == 1 ==> Flatten(ss) == ss[0] && ss[0] in ss
  {
    if |ss| == 1 {
      assert Flatten(ss) == ss[0] + Flatten([]);
    }
  }

  /** `text.split(/([。、！？\n])/g)`: the delimiter-free runs alternate with the
      delimiters themselves, so the result has odd length, the even positions
      hold runs (possibly empty) and the odd positions hold one delimiter each. */
  function Split(s: string): (r: seq<string>)
    ensures |r| % 2 == 1
    ensures forall i | 0 <= i < |r| && i % 2 == 0 :: NoBreak(r[i])
    ensures forall i | 0 <= i < |r| && i % 2 == 1 :: |r[i]| == 1 && IsBreak(r[i][0])
  {
    if s == [] then [""]
    else if IsBreak(s[0]) then ["", [s[0]]] + Split(s[1..])
    else
      var rest := Split(s[1..]);
      [[s[0]] + rest[0]] + rest[1..]
  }

  /** Splitting loses, duplicates and reorders nothing. */
  lemma {:induction false} SplitRoundTrip(s: string)
    ensures Flatten(Split(s)) == s
  {
    if s == [] {
    } else if IsBreak(s[0]) {
      SplitRoundTrip(s[1..]);
      FlattenAppend(["", [s[0]]], Split(s[1..]));
    } else {
      var rest := Split(s[1..]);
      SplitRoundTrip(s[1..]);
      FlattenAppend([[s[0]] + rest[0]], rest[1..]);
      assert Flatten(rest) == rest[0] + Flatten(rest[1..]);
    }
  }

  /** `if (currentChunk) chunks.push(currentChunk)`: only non-empty chunks are kept. */
  function Emit(current: string): seq<string> {
    if current != [] then [current] else []
  }

  /** The `forEach` packing loop, with `current` the chunk under construction:
      a piece is appended while the sum stays below the bound, otherwise the
      current chunk is emitted and the piece starts the next one. */
  function Pack(pieces: seq<string>, current: string): seq<string>
  {
    if pieces == [] then Emit(current)
    else if Utf16Len(current) + Utf16Len(pieces[0]) < MaxChunkUnits then
      Pack(pieces[1..], current + pieces[0])
    else
      Emit(current) + Pack(pieces[1..], pieces[0])
  }

  /** The chunks `speak` plays for `text`. */
  function Chunks(text: string): seq<string> {
    Pack(Split(text), "")
  }

  lemma {:induction false} PackFlatten(pieces: seq<string>, current: string)
    ensures Flatten(Pack(pieces, current)) == current + Flatten(pieces)
  {
    if pieces == [] {
      assert Flatten(Emit(current)) == current by {
        FlattenSingleton(Emit(current));
      }
    } else {
      var rest := Flatten(pieces[1..]);
      assert Flatten(pieces) == pieces[0] + rest;
      if Utf16Len(current) + Utf16Len(pieces[0]) < MaxChunkUnits {
        PackFlatten(pieces[1..], current + pieces[0]);
        assert (current + pieces[0]) + rest == current + (pieces[0] + rest);
      } else {
        PackFlatten(pieces[1..], pieces[0]);
        FlattenAppend(Emit(current), Pack(pieces[1..], pieces[0]));
        assert Flatten(Emit(current)) == current by {
          FlattenSingleton(Emit(current));
        }
      }
    }
  }

  lemma {:induction false} PackNonEmpty(pieces: seq<string>, current: string)
    ensures forall c | c in Pack(pieces, current) :: c != []
  {
    if pieces == [] {
    } else if Utf16Len(current) + Utf16Len(pieces[0]) < MaxChunkUnits {
      PackNonEmpty(pieces[1..], current + pieces[0]);
    } else {
      PackNonEmpty(pieces[1..], pieces[0]);
    }
  }

  /** A chunk fits when it is under the bound or is one of the allowed pieces. */
  predicate Fits(c: string, allowed: seq<string>) {
    Utf16Len(c) < MaxChunkUnits || c in allowed
  }

  lemma {:induction false} PackFits(pieces: seq<string>, current: string, allowed: seq<string>)
    requires Fits(current, allowed)
    requires forall p | p in pieces :: p in allowed
    ensures forall c | c in Pack(pieces, current) :: Fits(c, allowed)
  {
    if pieces == [] {
    } else if Utf16Len(current) + Utf16Len(pieces[0]) < MaxChunkUnits {
      Utf16LenAppend(current, pieces[0]);
      PackFits(pieces[1..], current + pieces[0], allowed);
    } else {
      assert pieces[0] in allowed;
      PackFits(pieces[1..], pieces[0], allowed);
    }
  }

  /** A non-empty chunk under construction is emitted first, possibly grown. */
  lemma {:induction false} PackHead(pieces: seq<string>, current: string)
    requires current != []
    ensures |Pack(pieces, current)| > 0
    ensures Utf16Len(Pack(pieces, current)[0]) >= Utf16Len(current)
  {
    if pieces == [] {
    } else if Utf16Len(current) + Utf16Len(pieces[0]) < MaxChunkUnits {
      Utf16LenAppend(current, pieces[0]);
      PackHead(pieces[1..], current + pieces[0]);
    } else {
    }
  }

  /** Greedy packing: no two neighbouring chunks could have been merged. */
  predicate NoMergeable(cs: seq<string>) {
    forall i | 0 <= i < |cs| - 1 :: Utf16Len(cs[i]) + Utf16Len(cs[i + 1]) >= MaxChunkUnits
  }

  lemma {:induction false} PackGreedy(pieces: seq<string>, current: string)
    ensures NoMergeable(Pack(pieces, current))
  {
    if pieces == [] {
    } else if Utf16Len(current) + Utf16Len(pieces[0]) < MaxChunkUnits {
      PackGreedy(pieces[1..], current + pieces[0]);
    } else {
      var p := pieces[0];
      var tail := Pack(pieces[1..], p);
      PackGreedy(pieces[1..], p);
      if current != [] && |tail| > 0 {
        if p != [] {
          PackHead(pieces[1..], p);
        } else {
          Utf16LenBounds(p);
        }
        var r := [current] + tail;
        forall i | 0 <= i < |r| - 1
          ensures Utf16Len(r[i]) + Utf16Len(r[i + 1]) >= MaxChunkUnits
        {
          if i > 0 {
            assert r[i] == tail[i - 1] && r[i + 1] == tail[i];
          }
        }
      }
    }
  }

  // ----- Properties of the chunks `speak` plays -----

  /** Concatenating the chunks in order gives back exactly the input text. */
  lemma ChunksRoundTrip(text: string)
    ensures Flatten(Chunks(text)) == text
  {
    PackFlatten(Split(text), "");
    SplitRoundTrip(text);
  }

  /** Every chunk is non-empty, and the empty text yields no chunk at all. */
  lemma ChunksNonEmpty(text: string)
    ensures forall c | c in Chunks(text) :: c != []
    ensures Chunks(text) == [] <==> text == []
  {
    PackNonEmpty(Split(text), "");
    ChunksRoundTrip(text);
  }

  /** Every chunk is shorter than the bound, or else it is a single delimiter-free
      piece of the split that was already too long on its own. */
  lemma ChunksBounded(text: string)
    ensures forall c | c in Chunks(text) ::
      Utf16Len(c) < MaxChunkUnits || (c in Split(text) && NoBreak(c))
  {
    var pieces := Split(text);
    PackFits(pieces, "", pieces);
    forall c | c in Chunks(text) && Utf16Len(c) >= MaxChunkUnits
      ensures c in pieces && NoBreak(c)
    {
      assert Fits(c, pieces);
      var i :| 0 <= i < |pieces| && pieces[i] == c;
      if i % 2 == 1 {
        Utf16LenBounds(c);
      }
    }
  }

  /** The packing is greedy: any two neighbouring chunks together reach the bound. */
  lemma ChunksGreedy(text: string)
    ensures NoMergeable(Chunks(text))
  {
    PackGreedy(Split(text), "");
  }
}
