/** Strings as the incremental decoders see them. */
module Text {

  /** The chunks of an input, put back together. */
  function Concat<T>(chunks: seq<seq<T>>): seq<T> {
    if chunks == [] then [] else Concat(chunks[..|chunks| - 1]) + chunks[|chunks| - 1]
  }

  lemma ConcatStep<T>(chunks: seq<seq<T>>, k: nat)
    requires k < |chunks|
    ensures Concat(chunks[..k + 1]) == Concat(chunks[..k]) + chunks[k]
  {
    assert chunks[..k + 1][..k] == chunks[..k];
  }

  lemma ConcatAppend<T>(chunks: seq<seq<T>>, c: seq<T>)
    ensures Concat(chunks + [c]) == Concat(chunks) + c
  {
    assert (chunks + [c])[..|chunks|] == chunks;
  }

  lemma ConcatOne<T>(c: seq<T>)
    ensures Concat([c]) == c
  {
    assert [c][..0] == [];
  }

  lemma {:induction false} ConcatConcat<T>(a: seq<seq<T>>, b: seq<seq<T>>)
    ensures Concat(a + b) == Concat(a) + Concat(b)
  {
    if b == [] {
      assert a + b == a;
    } else {
      var init, last := b[..|b| - 1], b[|b| - 1];
      ConcatConcat(a, init);
      assert (a + b)[..|a + b| - 1] == a + init;
      Associates(Concat(a), Concat(init), last);
    }
  }

  lemma PrependTo<T>(start: seq<T>, a: seq<T>, b: seq<T>, c: seq<T>)
    ensures start + (a + b + c) == (start + a) + b + c
  {
  }

  lemma Associates<T>(a: seq<T>, b: seq<T>, c: seq<T>)
    ensures a + (b + c) == a + b + c
  {
  }

  /** Moving the head of a queue to what was taken from it. */
  lemma HeadMoved<T>(taken: seq<T>, queue: seq<T>)
    requires queue != []
    ensures taken + queue == (taken + [queue[0]]) + queue[1..]
    ensures taken + [queue[0]] <= taken + queue
  {
  }

  // ---- a CR at the end of a chunk, which may be half of a CR LF -------------

  predicate EndsInCr(s: string) { s != "" && s[|s| - 1] == '\r' }

  /** The next chunk after a CR set aside earlier. */
  function WithCr(cr: bool, chunk: string): string { if cr then "\r" + chunk else chunk }
}
