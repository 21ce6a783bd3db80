/** Fixed-size re-chunking (`ByteChunker` and `TextChunker` in `_decoders.py`, which differ only in the unit). */
module Chunks {
  import opened Lists
  import opened Text

  /** Consecutive pieces of `size` units, the last one possibly shorter. */
  function Pieces<T>(s: seq<T>, size: nat): seq<seq<T>>
    requires size >= 1
    decreases |s|
  {
    if s == [] then []
    else if |s| <= size then [s]
    else [s[..size]] + Pieces(s[size..], size)
  }

  ghost predicate AllFull<T>(pieces: seq<seq<T>>, size: nat) {
    forall i :: 0 <= i < |pieces| ==> |pieces[i]| == size
  }

  /** Full pieces followed by the pieces of the rest are the pieces of the whole. */
  lemma {:induction false} FullPrefix<T>(pieces: seq<seq<T>>, rest: seq<T>, size: nat)
    requires size >= 1 && AllFull(pieces, size)
    ensures Pieces(Concat(pieces) + rest, size) == pieces + Pieces(rest, size)
    decreases |pieces|
  {
    if pieces == [] {
      assert Concat(pieces) + rest == rest;
    } else {
      var init, last := pieces[..|pieces| - 1], pieces[|pieces| - 1];
      FullPrefix(init, last + rest, size);
      assert Concat(init) + (last + rest) == Concat(pieces) + rest;
      OnePiece(last, rest, size);
      assert pieces == init + [last];
    }
  }

  lemma OnePiece<T>(piece: seq<T>, rest: seq<T>, size: nat)
    requires size >= 1 && |piece| == size
    ensures Pieces(piece + rest, size) == [piece] + Pieces(rest, size)
  {
    if rest == [] {
      assert piece + rest == piece;
    } else {
      assert (piece + rest)[..size] == piece && (piece + rest)[size..] == rest;
    }
  }

  class Chunker<T> {
    const chunkSize: Option<nat>
    var buffer: seq<T>

    /** Less than one full piece is ever kept. */
    ghost predicate Valid()
      reads this
    {
      if chunkSize.Some? then chunkSize.value >= 1 && |buffer| < chunkSize.value else buffer == []
    }

    constructor (chunkSize: Option<nat>)
      requires chunkSize.Some? ==> chunkSize.value >= 1
      ensures Valid() && this.chunkSize == chunkSize && buffer == []
    {
      this.chunkSize, buffer := chunkSize, [];
    }

    /** Emits only full pieces; with what stays in the buffer they are the old buffer and the content, in order. */
    method Decode(content: seq<T>) returns (chunks: seq<seq<T>>)
      requires Valid()
      modifies this
      ensures Valid() && Delivered(chunks, buffer, old(buffer) + content, chunkSize)
      ensures chunkSize.None? ==> chunks == if content == [] then [] else [content]
    {
      if chunkSize.None? {
        ConcatOne(content);
        return if content == [] then [] else [content];
      }
      var size := chunkSize.value;
      buffer := buffer + content;
      if |buffer| >= size {
        var value := buffer;
        chunks := Split(value, size);
        var init, last := chunks[..|chunks| - 1], chunks[|chunks| - 1];
        assert chunks == init + [last];
        ConcatAppend(init, last);
        if |last| == size {
          buffer := [];
          assert Concat(chunks) + buffer == value;
        } else {
          buffer := last;
          chunks := init;
        }
      } else {
        assert Concat([]) + buffer == buffer;
        return [];
      }
    }

    method Flush() returns (chunks: seq<seq<T>>)
      requires Valid()
      modifies this
      ensures Valid() && buffer == []
      ensures chunkSize.Some? ==> chunks == Pieces(old(buffer), chunkSize.value)
      ensures |chunks| <= 1 && (chunkSize.None? ==> chunks == [])
    {
      chunks := if buffer == [] then [] else [buffer];
      buffer := [];
    }
  }

  /** The slices of `value` at 0, size, 2 * size, ...: all full but possibly the last, and none empty. */
  method Split<T>(value: seq<T>, size: nat) returns (chunks: seq<seq<T>>)
    requires size >= 1 && value != []
    ensures chunks != [] && AllFull(chunks[..|chunks| - 1], size) && 1 <= |chunks[|chunks| - 1]| <= size
    ensures Concat(chunks) == value
  {
    chunks := [];
    var i := 0;
    while i < |value|
      invariant 0 <= i <= |value| && Concat(chunks) == value[..i]
      invariant i > 0 ==> chunks != [] && AllFull(chunks[..|chunks| - 1], size) && 1 <= |chunks[|chunks| - 1]| <= size
      invariant i < |value| ==> AllFull(chunks, size)
      decreases |value| - i
    {
      var piece := value[i..if i + size <= |value| then i + size else |value|];
      ConcatAppend(chunks, piece);
      assert (chunks + [piece])[..|chunks|] == chunks;
      chunks := chunks + [piece];
      i := i + |piece|;
    }
    assert value[..i] == value;
  }

  /** `chunks` and what is kept make up `text`; the chunks are full, or just not empty without a size. */
  ghost predicate Delivered<T>(chunks: seq<seq<T>>, kept: seq<T>, text: seq<T>, chunkSize: Option<nat>) {
    && Concat(chunks) + kept == text
    && (if chunkSize.Some? then AllFull(chunks, chunkSize.value) else kept == [])
    && forall i :: 0 <= i < |chunks| ==> chunks[i] != []
  }

  lemma DeliveredMore<T>(chunks: seq<seq<T>>, kept: seq<T>, text: seq<T>, chunkSize: Option<nat>,
                                            content: seq<T>, out: seq<seq<T>>, kept': seq<T>)
    requires Delivered(chunks, kept, text, chunkSize) && Delivered(out, kept', kept + content, chunkSize)
    ensures Delivered(chunks + out, kept', text + content, chunkSize)
  {
    ConcatConcat(chunks, out);
    assert Concat(chunks) + (Concat(out) + kept') == Concat(chunks) + (kept + content);
    assert Concat(chunks) + Concat(out) + kept' == Concat(chunks) + (Concat(out) + kept');
    assert Concat(chunks) + (kept + content) == Concat(chunks) + kept + content;
  }

  /** However the input is cut, the output is the input in pieces of the chunk size, or the chunks with text. */
  method Rechunk<T>(contents: seq<seq<T>>, chunkSize: Option<nat>) returns (chunks: seq<seq<T>>)
    requires chunkSize.Some? ==> chunkSize.value >= 1
    ensures chunkSize.Some? ==> chunks == Pieces(Concat(contents), chunkSize.value)
    ensures chunkSize.None? ==> Concat(chunks) == Concat(contents) && forall i :: 0 <= i < |chunks| ==> chunks[i] != []
  {
    var chunker := new Chunker(chunkSize);
    chunks := [];
    for k := 0 to |contents|
      invariant fresh(chunker) && chunker.Valid() && chunker.chunkSize == chunkSize
      invariant Delivered(chunks, chunker.buffer, Concat(contents[..k]), chunkSize)
    {
      ConcatStep(contents, k);
      ghost var before := chunker.buffer;
      var out := chunker.Decode(contents[k]);
      DeliveredMore(chunks, before, Concat(contents[..k]), chunkSize, contents[k], out, chunker.buffer);
      chunks := chunks + out;
    }
    assert contents[..|contents|] == contents;
    if chunkSize.Some? {
      FullPrefix(chunks, chunker.buffer, chunkSize.value);
    } else {
      assert Concat(chunks) + [] == Concat(chunks);
    }
    var last := chunker.Flush();
    assert last == [] ==> chunks + last == chunks;
    chunks := chunks + last;
  }
}
