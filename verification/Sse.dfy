/** Server-sent events (`_sse.py`): lines and events decoded chunk by chunk, with a bound on what is buffered. */
module Sse {
  import opened Text

  // ---- text ----------------------------------------------------------------

  /** Bytes of a character in UTF-8. */
  function CharBytes(c: char): nat {
    if c as int < 0x80 then 1 else if c as int < 0x800 then 2 else if c as int < 0x1_0000 then 3 else 4
  }

  function ByteLen(s: string): nat {
    if s == "" then 0 else ByteLen(s[..|s| - 1]) + CharBytes(s[|s| - 1])
  }

  lemma {:induction false} ByteLenConcat(a: string, b: string)
    ensures ByteLen(a + b) == ByteLen(a) + ByteLen(b)
  {
    if b == "" {
      assert a + b == a;
    } else {
      ByteLenConcat(a, b[..|b| - 1]);
      assert (a + b)[..|a + b| - 1] == a + b[..|b| - 1];
    }
  }

  /** `text.replace("\r\n", "\n")`. */
  function CrLfToLf(s: string): string {
    if |s| < 2 then s
    else if s[0] == '\r' && s[1] == '\n' then "\n" + CrLfToLf(s[2..])
    else [s[0]] + CrLfToLf(s[1..])
  }

  /** `text.replace("\r", "\n")`. */
  function CrToLf(s: string): string {
    if s == "" then "" else [if s[0] == '\r' then '\n' else s[0]] + CrToLf(s[1..])
  }

  function Normalise(s: string): string { CrToLf(CrLfToLf(s)) }

  predicate StartsWithLf(s: string) { s != "" && s[0] == '\n' }

  lemma CrLfChar(c: char, rest: string)
    requires !(c == '\r' && StartsWithLf(rest))
    ensures CrLfToLf([c] + rest) == [c] + CrLfToLf(rest)
  {
    var s := [c] + rest;
    assert s[1..] == rest;
    if rest == "" {
      assert s == [c];
    }
  }

  lemma CrLfPair(rest: string)
    ensures CrLfToLf("\r\n" + rest) == "\n" + CrLfToLf(rest)
  {
    assert ("\r\n" + rest)[2..] == rest;
  }

  lemma {:induction false} CrLfConcat(a: string, b: string)
    requires !(EndsInCr(a) && StartsWithLf(b))
    ensures CrLfToLf(a + b) == CrLfToLf(a) + CrLfToLf(b)
    decreases |a|
  {
    if a == "" {
      assert a + b == b;
    } else if |a| >= 2 && a[0] == '\r' && a[1] == '\n' {
      var t := a[2..];
      assert a == "\r\n" + t;
      Associates("\r\n", t, b);
      CrLfConcat(t, b);
      CrLfPair(t);
      CrLfPair(t + b);
      Associates("\n", CrLfToLf(t), CrLfToLf(b));
    } else {
      var t := a[1..];
      assert a == [a[0]] + t;
      Associates([a[0]], t, b);
      CrLfConcat(t, b);
      CrLfChar(a[0], t);
      CrLfChar(a[0], t + b);
      Associates([a[0]], CrLfToLf(t), CrLfToLf(b));
    }
  }

  lemma {:induction false} CrToLfConcat(a: string, b: string)
    ensures CrToLf(a + b) == CrToLf(a) + CrToLf(b)
  {
    if a == "" {
      assert a + b == b;
    } else {
      assert (a + b)[1..] == a[1..] + b;
      CrToLfConcat(a[1..], b);
    }
  }

  /** Newlines are normalised piecewise, as long as no CR LF is cut in two. */
  lemma NormaliseConcat(a: string, b: string)
    requires !(EndsInCr(a) && StartsWithLf(b))
    ensures Normalise(a + b) == Normalise(a) + Normalise(b)
  {
    CrLfConcat(a, b);
    CrToLfConcat(CrLfToLf(a), CrLfToLf(b));
  }

  /** `text.split("\n")`: one part more than there are newlines. */
  function Split(s: string): (parts: seq<string>)
    ensures |parts| >= 1
  {
    if s == "" then [""]
    else
      var before, c := Split(s[..|s| - 1]), s[|s| - 1];
      if c == '\n' then before + [""] else Glue(before, [[c]])
  }

  /** Two splits put together: the last part of the first continues in the first part of the second. */
  function Glue(a: seq<string>, b: seq<string>): (r: seq<string>)
    requires a != [] && b != []
    ensures |r| == |a| + |b| - 1
  {
    a[..|a| - 1] + [a[|a| - 1] + b[0]] + b[1..]
  }

  lemma GlueMore(a: seq<string>, b: seq<string>, c: seq<string>)
    requires a != [] && b != [] && c != []
    ensures Glue(Glue(a, b), c) == Glue(a, Glue(b, c))
  {
    if |b| == 1 {
      assert Glue(a, b)[|Glue(a, b)| - 1] + c[0] == a[|a| - 1] + (b[0] + c[0]);
    } else {
      assert Glue(a, b)[|Glue(a, b)| - 1] == b[|b| - 1];
    }
  }

  lemma GlueEnd(a: seq<string>, b: seq<string>)
    requires a != [] && b != []
    ensures Glue(a, b + [""]) == Glue(a, b) + [""]
  {
  }

  lemma {:induction false} SplitConcat(a: string, b: string)
    ensures Split(a + b) == Glue(Split(a), Split(b))
    decreases |b|
  {
    if b == "" {
      assert a + b == a;
      var p := Split(a);
      assert p[|p| - 1] + "" == p[|p| - 1];
      assert Glue(p, [""]) == p;
    } else {
      var init, c := b[..|b| - 1], b[|b| - 1];
      assert (a + b)[..|a + b| - 1] == a + init;
      SplitConcat(a, init);
      if c == '\n' {
        GlueEnd(Split(a), Split(init));
      } else {
        GlueMore(Split(a), Split(init), [[c]]);
      }
    }
  }

  predicate NoLf(s: string) { forall i :: 0 <= i < |s| ==> s[i] != '\n' }

  lemma {:induction false} SplitParts(s: string)
    ensures forall i :: 0 <= i < |Split(s)| ==> NoLf(Split(s)[i])
    ensures NoLf(s) ==> Split(s) == [s]
  {
    if s != "" {
      SplitParts(s[..|s| - 1]);
      assert s == s[..|s| - 1] + [s[|s| - 1]];
    }
  }

  // ---- lines ---------------------------------------------------------------

  /** The text without a final CR, which waits for what comes next. */
  function Body(s: string): string { if EndsInCr(s) then s[..|s| - 1] else s }

  /**
    The lines of a whole stream: its newline-normalised text split at newlines. Text after the last newline is a
    line if there is any; a final CR adds a blank line of its own.
   */
  function StreamLines(s: string): seq<string> {
    DropBlank(Split(Normalise(s)), EndsInCr(s))
  }

  /** The parts without a blank one at the end, unless it is to be kept. */
  function DropBlank(parts: seq<string>, keep: bool): seq<string>
    requires parts != []
  {
    if parts[|parts| - 1] == "" && !keep then parts[..|parts| - 1] else parts
  }

  class LineDecoder {
    var parts: seq<string>
    var pendingSize: nat
    var trailingCr: bool

    ghost predicate Valid()
      reads this
    {
      pendingSize == ByteLen(Concat(parts))
    }

    /** `text` has come in and `lines` have gone out. */
    ghost predicate Holds(text: string, lines: seq<string>)
      reads this
    {
      Split(Normalise(Body(text))) == lines + [Concat(parts)] && trailingCr == EndsInCr(text)
    }

    constructor ()
      ensures Valid() && Holds("", [])
    {
      parts, pendingSize, trailingCr := [], 0, false;
    }

    method Append(text: string)
      requires Valid()
      modifies this`parts, this`pendingSize
      ensures Valid() && Concat(parts) == old(Concat(parts)) + text
    {
      if text != "" {
        ConcatAppend(parts, text);
        ByteLenConcat(Concat(parts), text);
        parts := parts + [text];
        pendingSize := pendingSize + ByteLen(text);
      }
    }

    method ConsumePending() returns (pending: string)
      requires Valid()
      modifies this`parts, this`pendingSize
      ensures Valid() && pending == old(Concat(parts)) && parts == []
    {
      pending := Concat(parts);
      parts, pendingSize := [], 0;
    }

    method Decode(chunk: string, ghost soFar: string, ghost done: seq<string>) returns (lines: seq<string>)
      requires Valid() && Holds(soFar, done)
      modifies this
      ensures Valid() && Holds(soFar + chunk, done + lines)
    {
      ghost var pending := Concat(parts);
      DecodeStep(soFar, done, pending, chunk);
      var text := chunk;
      if trailingCr {
        text := "\r" + text;
        trailingCr := false;
      }
      if text != "" && text[|text| - 1] == '\r' {
        trailingCr := true;
        text := text[..|text| - 1];
      }
      assert text == Body(WithCr(EndsInCr(soFar), chunk));
      lines := DecodeNormalised(Normalise(text));
      Associates(done, lines, [Concat(parts)]);
    }

    /** The part of `Decode` after normalisation. */
    method DecodeNormalised(text: string) returns (lines: seq<string>)
      requires Valid()
      modifies this`parts, this`pendingSize
      ensures Valid() && lines + [Concat(parts)] == Glue([old(Concat(parts))], Split(text))
    {
      SplitParts(text);
      if '\n' !in text {
        Append(text);
        return [];
      }
      lines := Split(text);
      if |lines| == 1 {
        OnePart(text);
        assert false;
      }
      GlueEnds(Concat(parts), lines);
      Append(lines[0]);
      var first := ConsumePending();
      lines := lines[0 := first];
      Append(lines[|lines| - 1]);
      lines := lines[..|lines| - 1];
    }

    /** The lines of the whole stream are out after `flush`. */
    method Flush(ghost soFar: string, ghost done: seq<string>) returns (lines: seq<string>)
      requires Valid() && Holds(soFar, done)
      modifies this
      ensures Valid() && done + lines == StreamLines(soFar)
      ensures parts == [] && !trailingCr
    {
      FlushLines(soFar, done, Concat(parts));
      if trailingCr {
        Append("\n");
        trailingCr := false;
      }
      var buffer := ConsumePending();
      if buffer == "" {
        return [];
      }
      return Split(buffer);
    }
  }

  /** The text of a stream after one more chunk, without its final CR. */
  lemma ChunkBody(soFar: string, chunk: string)
    ensures var whole := WithCr(EndsInCr(soFar), chunk);
      && Body(soFar + chunk) == Body(soFar) + Body(whole)
      && EndsInCr(soFar + chunk) == EndsInCr(whole)
      && !(EndsInCr(Body(soFar)) && StartsWithLf(Body(whole)))
  {
    var whole := WithCr(EndsInCr(soFar), chunk);
    assert soFar + chunk == Body(soFar) + whole;
  }

  /** What one more chunk does to the lines out and the text kept. */
  lemma DecodeStep(soFar: string, done: seq<string>, pending: string, chunk: string)
    requires Split(Normalise(Body(soFar))) == done + [pending]
    ensures var whole := WithCr(EndsInCr(soFar), chunk);
      && EndsInCr(soFar + chunk) == EndsInCr(whole)
      && Split(Normalise(Body(soFar + chunk))) == done + Glue([pending], Split(Normalise(Body(whole))))
  {
    var whole := WithCr(EndsInCr(soFar), chunk);
    ChunkBody(soFar, chunk);
    NormaliseConcat(Body(soFar), Body(whole));
    SplitConcat(Normalise(Body(soFar)), Normalise(Body(whole)));
    GlueLines(done, pending, Split(Normalise(Body(whole))));
  }

  lemma GlueLines(done: seq<string>, pending: string, parts: seq<string>)
    requires parts != []
    ensures Glue(done + [pending], parts) == done + Glue([pending], parts)
  {
  }

  lemma GlueEnds(pending: string, parts: seq<string>)
    requires |parts| >= 2
    ensures var lines := parts[0 := pending + parts[0]];
      lines[..|lines| - 1] + ["" + lines[|lines| - 1]] == Glue([pending], parts)
  {
    assert "" + parts[|parts| - 1] == parts[|parts| - 1];
  }

  lemma {:induction false} OnePart(text: string)
    requires |Split(text)| == 1
    ensures NoLf(text)
  {
    if text != "" {
      OnePart(text[..|text| - 1]);
      SplitParts(text[..|text| - 1]);
    }
  }

  lemma LastPart(text: string, done: seq<string>, pending: string)
    requires Split(text) == done + [pending]
    ensures NoLf(pending)
  {
    SplitParts(text);
    assert Split(text)[|done|] == pending;
  }

  /** What `flush` is left with. */
  lemma {:induction false} FlushLines(soFar: string, done: seq<string>, pending: string)
    requires Split(Normalise(Body(soFar))) == done + [pending]
    ensures var buffer := if EndsInCr(soFar) then pending + "\n" else pending;
      StreamLines(soFar) == done + if buffer == "" then [] else Split(buffer)
  {
    LastPart(Normalise(Body(soFar)), done, pending);
    SplitParts(pending);
    if EndsInCr(soFar) {
      FinalCr(soFar);
      SplitConcat(pending, "\n");
      Associates(done, [pending], [""]);
      assert Split("\n") == ["", ""];
      assert pending + "" == pending;
    }
  }

  /** A final CR becomes a final newline. */
  lemma FinalCr(s: string)
    requires EndsInCr(s)
    ensures Normalise(s) == Normalise(Body(s)) + "\n"
    ensures Split(Normalise(s)) == Split(Normalise(Body(s))) + [""]
  {
    assert s == Body(s) + "\r";
    NormaliseConcat(Body(s), "\r");
    assert Normalise("\r") == "\n";
    assert (Normalise(Body(s)) + "\n")[..|Normalise(Body(s))|] == Normalise(Body(s));
  }
}
