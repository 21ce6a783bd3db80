/** Incremental line splitting (`LineDecoder` in `_decoders.py`) against `str.splitlines` of the whole text. */
module Lines {
  import opened Text

  /** The characters `splitlines` breaks at; CR LF counts as one break. */
  predicate IsNewline(c: char) {
    || c == '\n' || c == '\r' || c == '\U{0B}' || c == '\U{0C}' || c == '\U{1C}' || c == '\U{1D}' || c == '\U{1E}'
    || c == '\U{85}' || c == '\U{2028}' || c == '\U{2029}'
  }

  predicate NoNewline(s: string) { forall i :: 0 <= i < |s| ==> !IsNewline(s[i]) }

  /** Position of the first newline, or the length. */
  function LineEnd(s: string): (n: nat)
    ensures n <= |s| && NoNewline(s[..n]) && (n < |s| ==> IsNewline(s[n]))
  {
    if s == "" || IsNewline(s[0]) then 0 else 1 + LineEnd(s[1..])
  }

  function BreakSize(s: string, n: nat): nat
    requires n < |s|
  {
    if s[n] == '\r' && n + 1 < |s| && s[n + 1] == '\n' then 2 else 1
  }

  /** `str.splitlines`: a final break ends the last line and starts no other. */
  function SplitLines(s: string): seq<string>
    decreases |s|
  {
    if s == "" then []
    else
      var n := LineEnd(s);
      if n == |s| then [s] else [s[..n]] + SplitLines(s[n + BreakSize(s, n)..])
  }

  lemma {:induction false} LineEndUnique(s: string, n: nat)
    requires n <= |s| && NoNewline(s[..n]) && (n < |s| ==> IsNewline(s[n]))
    ensures LineEnd(s) == n
  {
    if n > 0 {
      assert s[1..][..n - 1] == s[..n][1..];
      assert s[..n][0] == s[0];
      LineEndUnique(s[1..], n - 1);
    }
  }

  /** One line break: CR LF or a single newline character. */
  predicate IsBreak(b: string) { b == "\r\n" || (|b| == 1 && IsNewline(b[0])) }

  /** A cut between `s` and `t` does not separate a CR from its LF. */
  predicate CleanCut(s: string, t: string) {
    !(s != "" && s[|s| - 1] == '\r' && t != "" && t[0] == '\n')
  }

  /** Splitting goes line by line. */
  lemma SplitFirst(line: string, brk: string, rest: string)
    requires NoNewline(line) && IsBreak(brk) && CleanCut(brk, rest)
    ensures SplitLines(line + brk + rest) == [line] + SplitLines(rest)
  {
    var s := line + brk + rest;
    assert s[..|line|] == line && s[|line|] == brk[0];
    LineEndUnique(s, |line|);
    assert |brk| == 1 && rest != "" ==> s[|line| + 1] == rest[0];
    assert |brk| == 2 ==> s[|line| + 1] == '\n';
    assert s[|line| + |brk|..] == rest;
  }

  /** The first line of a text that has a break, that break, and the rest. */
  lemma FirstLine(s: string) returns (line: string, brk: string, rest: string)
    requires !NoNewline(s)
    ensures s == line + brk + rest && NoNewline(line) && IsBreak(brk) && CleanCut(brk, rest)
    ensures |rest| < |s|
  {
    var n := LineEnd(s);
    assert s[..|s|] == s;
    var b := BreakSize(s, n);
    line, brk, rest := s[..n], s[n..n + b], s[n + b..];
    assert s == line + brk + rest;
  }

  lemma SplitOne(line: string)
    requires NoNewline(line) && line != ""
    ensures SplitLines(line) == [line]
  {
    LineEndUnique(line, |line|);
  }

  predicate EndsInNewline(s: string) { s != "" && IsNewline(s[|s| - 1]) }

  lemma LastOfRest(line: string, brk: string, rest: string)
    requires rest != ""
    ensures EndsInNewline(line + brk + rest) <==> EndsInNewline(rest)
    ensures (line + brk + rest)[|line + brk + rest| - 1] == rest[|rest| - 1]
  {
  }

  lemma LastOfBreak(line: string, brk: string)
    requires IsBreak(brk)
    ensures EndsInNewline(line + brk + "")
    ensures (line + brk + "")[|line + brk + ""| - 1] == brk[|brk| - 1]
  {
  }

  lemma SplitAtBreak(line: string, brk: string, t: string)
    requires NoNewline(line) && IsBreak(brk) && CleanCut(line + brk, t)
    ensures SplitLines(line + brk + t) == SplitLines(line + brk) + SplitLines(t)
  {
    SplitFirst(line, brk, t);
    SplitAlone(line, brk);
  }

  lemma SplitAlone(line: string, brk: string)
    requires NoNewline(line) && IsBreak(brk)
    ensures SplitLines(line + brk) == [line]
  {
    SplitFirst(line, brk, "");
    SplitEmpty();
    assert line + brk + "" == line + brk;
  }

  /** Text that ends in a break splits independently of what follows. */
  lemma {:induction false} SplitAfterBreak(s: string, t: string)
    requires EndsInNewline(s) && CleanCut(s, t)
    ensures SplitLines(s + t) == SplitLines(s) + SplitLines(t)
    decreases |s|
  {
    var line, brk, rest := FirstLine(s);
    if rest == "" {
      assert s == line + brk;
      SplitAtBreak(line, brk, t);
    } else {
      LastOfRest(line, brk, rest);
      SplitAfterBreak(rest, t);
      SplitFirst(line, brk, rest);
      Associates(line + brk, rest, t);
      SplitFirst(line, brk, rest + t);
      Associates([line], SplitLines(rest), SplitLines(t));
    }
  }

  lemma SplitEmpty()
    ensures SplitLines("") == []
  {
  }

  /** Text that ends inside a line: what follows continues its last line. */
  lemma {:induction false} SplitInsideLine(s: string, t: string)
    requires s != "" && !EndsInNewline(s)
    ensures var ls := SplitLines(s);
      && ls != [] && NoNewline(ls[|ls| - 1]) && ls[|ls| - 1] != ""
      && SplitLines(s + t) == ls[..|ls| - 1] + SplitLines(ls[|ls| - 1] + t)
    decreases |s|
  {
    if NoNewline(s) {
      SplitOne(s);
      assert [s][..0] + SplitLines(s + t) == SplitLines(s + t);
    } else {
      var line, brk, rest := FirstLine(s);
      if rest == "" {
        LastOfBreak(line, brk);
        assert false;
      }
      LastOfRest(line, brk, rest);
      SplitFirst(line, brk, rest);
      Associates(line + brk, rest, t);
      SplitFirst(line, brk, rest + t);
      SplitInsideLine(rest, t);
      OneLineMore(line, SplitLines(rest), SplitLines(SplitLines(rest)[|SplitLines(rest)| - 1] + t));
    }
  }

  lemma OneLineMore(line: string, tail: seq<string>, after: seq<string>)
    requires tail != []
    ensures var ls := [line] + tail;
      ls[|ls| - 1] == tail[|tail| - 1] && [line] + (tail[..|tail| - 1] + after) == ls[..|ls| - 1] + after
  {
  }

  /** A line started earlier is continued by the first line of new text. */
  lemma SplitContinued(start: string, s: string)
    requires NoNewline(start) && s != ""
    ensures SplitLines(s) != []
    ensures SplitLines(start + s) == [start + SplitLines(s)[0]] + SplitLines(s)[1..]
  {
    if NoNewline(s) {
      SplitOne(s);
      SplitOne(start + s);
    } else {
      var line, brk, rest := FirstLine(s);
      SplitFirst(line, brk, rest);
      PrependTo(start, line, brk, rest);
      SplitFirst(start + line, brk, rest);
    }
  }

  // ---- the decoder ---------------------------------------------------------

  /** What the decoder still holds: the started line, and a CR that may be half of a CR LF. */
  datatype Pending = Pending(line: string, cr: bool)

  function Held(p: Pending): string { p.line + if p.cr then "\r" else "" }

  /** `out` and the new pending text account for the old pending text and the chunk, whatever comes next. */
  ghost predicate Accounts(p: Pending, chunk: string, out: seq<string>, p': Pending) {
    forall future: string :: SplitLines(Held(p) + chunk + future) == out + SplitLines(Held(p') + future)
  }

  /** Complete lines, and what is left of an unfinished one. */
  datatype Output = Output(lines: seq<string>, left: string)

  /** Splitting `text` as the continuation of `line`. */
  function Continued(line: string, text: string): Output {
    var ls := SplitLines(text);
    if text == "" || ls == [] then Output([], line)
    else
      var all := [line + ls[0]] + ls[1..];
      if EndsInNewline(text) then Output(all, "") else Output(all[..|all| - 1], all[|all| - 1])
  }

  /** What may be split now: a final CR waits for the next chunk. */
  function Ready(p: Pending, chunk: string): string {
    var whole := WithCr(p.cr, chunk);
    if EndsInCr(whole) then whole[..|whole| - 1] else whole
  }

  lemma ContinuedAccounts(p: Pending, chunk: string)
    requires NoNewline(p.line)
    ensures var o := Continued(p.line, Ready(p, chunk));
      NoNewline(o.left) && Accounts(p, chunk, o.lines, Pending(o.left, EndsInCr(WithCr(p.cr, chunk))))
  {
    var whole, text, cr := WithCr(p.cr, chunk), Ready(p, chunk), EndsInCr(WithCr(p.cr, chunk));
    assert Held(p) + chunk == p.line + whole;
    assert whole == text + if cr then "\r" else "";
    if text == "" {
      assert p.line + whole == Held(Pending(p.line, cr));
      KeepsAll(p, chunk, Pending(p.line, cr));
    } else {
      assert p.line + whole == p.line + text + if cr then "\r" else "";
      KeepsAccount(p, chunk, p.line, text, cr);
    }
  }

  class LineDecoder {
    var buffer: seq<string>
    var trailingCr: bool

    ghost function View(): Pending
      reads this
    {
      Pending(Concat(buffer), trailingCr)
    }

    /** The buffer is a non-empty list only if it holds text. */
    ghost predicate Buffered()
      reads this`buffer
    {
      buffer != [] ==> Concat(buffer) != ""
    }

    ghost predicate Valid()
      reads this
    {
      Buffered() && NoNewline(Concat(buffer))
    }

    constructor ()
      ensures Valid() && View() == Pending("", false)
    {
      buffer, trailingCr := [], false;
    }

    /** The lines returned and the text kept account for all text so far, however the input goes on. */
    method Decode(chunk: string) returns (lines: seq<string>)
      requires Valid()
      modifies this
      ensures Valid() && Accounts(old(View()), chunk, lines, View())
    {
      ContinuedAccounts(View(), chunk);
      var text := chunk;
      if trailingCr {
        text := "\r" + text;
        trailingCr := false;
      }
      if text != "" && text[|text| - 1] == '\r' {
        trailingCr := true;
        text := text[..|text| - 1];
      }
      assert text == Ready(old(View()), chunk) && trailingCr == EndsInCr(WithCr(old(trailingCr), chunk));
      lines := DecodeText(text);
    }

    /** The part of `Decode` after the CR: split, prepend what is buffered, buffer an unfinished line. */
    method DecodeText(text: string) returns (lines: seq<string>)
      requires Buffered()
      modifies this`buffer
      ensures Buffered() && Output(lines, Concat(buffer)) == Continued(old(Concat(buffer)), text)
    {
      if text == "" {
        return [];
      }
      var trailingNewline := IsNewline(text[|text| - 1]);
      ContinuedPieces(Concat(buffer), text);
      lines := SplitLines(text);
      if |lines| == 1 && !trailingNewline {
        ConcatAppend(buffer, lines[0]);
        buffer := buffer + [lines[0]];
        return [];
      }
      if buffer != [] {
        lines := [Concat(buffer) + lines[0]] + lines[1..];
        buffer := [];
      }
      if !trailingNewline {
        buffer := [lines[|lines| - 1]];
        ConcatOne(lines[|lines| - 1]);
        lines := lines[..|lines| - 1];
      }
    }

    method Flush() returns (lines: seq<string>)
      requires Valid()
      modifies this
      ensures Valid() && lines == SplitLines(old(Held(View()))) && View() == Pending("", false)
    {
      if buffer == [] && !trailingCr {
        return [];
      }
      lines := [Concat(buffer)];
      FlushText(View());
      buffer, trailingCr := [], false;
    }
  }

  /** The cases of `DecodeText`: all lines are complete, nothing is, or all but the last. */
  lemma {:induction false} ContinuedPieces(line: string, text: string)
    requires text != ""
    ensures var ls := SplitLines(text);
      && ls != [] && (EndsInNewline(text) || ls[|ls| - 1] != "") && "" + ls[0] == ls[0]
      && Continued(line, text)
        == if EndsInNewline(text) then Output([line + ls[0]] + ls[1..], "")
           else if |ls| == 1 then Output([], line + ls[0])
           else Output([line + ls[0]] + ls[1..|ls| - 1], ls[|ls| - 1])
  {
    SplitContinued("", text);
    if !EndsInNewline(text) {
      SplitInsideLine(text, "");
      AllButLast(line, SplitLines(text));
    }
  }

  lemma AllButLast(line: string, ls: seq<string>)
    requires ls != []
    ensures var all := [line + ls[0]] + ls[1..];
      && all[..|all| - 1] == (if |ls| == 1 then [] else [line + ls[0]] + ls[1..|ls| - 1])
      && all[|all| - 1] == (if |ls| == 1 then line + ls[0] else ls[|ls| - 1])
  {
  }

  lemma FlushText(p: Pending)
    requires NoNewline(p.line) && Held(p) != ""
    ensures SplitLines(Held(p)) == [p.line]
  {
    if p.cr {
      SplitAlone(p.line, "\r");
    } else {
      assert Held(p) == p.line;
      SplitOne(p.line);
    }
  }

  /** `Decode` on text that ends in a break: everything is out, only the CR set aside is kept. */
  lemma DecodeComplete(p: Pending, chunk: string, all: string, cr: bool)
    requires Held(p) + chunk == all + (if cr then "\r" else "") && EndsInNewline(all)
    requires cr || all[|all| - 1] != '\r'
    ensures Accounts(p, chunk, SplitLines(all), Pending("", cr))
  {
    var tail := if cr then "\r" else "";
    forall future: string
      ensures SplitLines(Held(p) + chunk + future) == SplitLines(all) + SplitLines(Held(Pending("", cr)) + future)
    {
      Associates(all, tail, future);
      assert "" + tail == tail;
      SplitAfterBreak(all, tail + future);
    }
  }

  /** `Decode` on text that ends inside a line: the last line is kept. */
  lemma DecodePartial(p: Pending, chunk: string, all: string, cr: bool)
    requires Held(p) + chunk == all + (if cr then "\r" else "") && all != "" && !EndsInNewline(all)
    ensures var ls := SplitLines(all);
      && ls != [] && NoNewline(ls[|ls| - 1]) && ls[|ls| - 1] != ""
      && Accounts(p, chunk, ls[..|ls| - 1], Pending(ls[|ls| - 1], cr))
  {
    SplitInsideLine(all, "");
    var ls, tail := SplitLines(all), if cr then "\r" else "";
    forall future: string
      ensures SplitLines(Held(p) + chunk + future)
        == ls[..|ls| - 1] + SplitLines(Held(Pending(ls[|ls| - 1], cr)) + future)
    {
      Associates(all, tail, future);
      Associates(ls[|ls| - 1], tail, future);
      SplitInsideLine(all, tail + future);
    }
  }

  /** What `Decode` returns and keeps for a text with its CR already set aside. */
  lemma KeepsAccount(p: Pending, chunk: string, line: string, text: string, cr: bool)
    requires NoNewline(line) && text != "" && (cr || text[|text| - 1] != '\r')
    requires Held(p) + chunk == line + text + if cr then "\r" else ""
    ensures var ls := SplitLines(text); ls != []
    ensures var ls := SplitLines(text);
      var all := [line + ls[0]] + ls[1..];
      if EndsInNewline(text) then Accounts(p, chunk, all, Pending("", cr))
      else
        && Accounts(p, chunk, all[..|all| - 1], Pending(all[|all| - 1], cr))
        && NoNewline(all[|all| - 1]) && all[|all| - 1] != ""
  {
    SplitContinued(line, text);
    assert (line + text)[|line + text| - 1] == text[|text| - 1];
    if EndsInNewline(text) {
      DecodeComplete(p, chunk, line + text, cr);
    } else {
      DecodePartial(p, chunk, line + text, cr);
    }
  }

  lemma KeepsAll(p: Pending, chunk: string, p': Pending)
    requires Held(p) + chunk == Held(p')
    ensures Accounts(p, chunk, [], p')
  {
  }

  /** The lines `done` and the pending text account for `text`, whatever comes next. */
  ghost predicate Covers(text: string, done: seq<string>, p: Pending) {
    forall future: string :: SplitLines(text + future) == done + SplitLines(Held(p) + future)
  }

  lemma CoversOneMore(text: string, done: seq<string>, p: Pending, chunk: string, out: seq<string>, p': Pending)
    requires Covers(text, done, p) && Accounts(p, chunk, out, p')
    ensures Covers(text + chunk, done + out, p')
  {
    forall future: string ensures SplitLines(text + chunk + future) == done + out + SplitLines(Held(p') + future) {
      var more := chunk + future;
      assert SplitLines(text + more) == done + SplitLines(Held(p) + more);
      Associates(text, chunk, future);
      Associates(Held(p), chunk, future);
      Associates(done, out, SplitLines(Held(p') + future));
    }
  }

  /** However a text is cut into chunks, its lines are those of the whole text. */
  method IterLines(chunks: seq<string>) returns (lines: seq<string>)
    ensures lines == SplitLines(Concat(chunks))
  {
    var decoder := new LineDecoder();
    lines := [];
    for k := 0 to |chunks|
      invariant decoder.Valid() && fresh(decoder)
      invariant Covers(Concat(chunks[..k]), lines, decoder.View())
    {
      ConcatStep(chunks, k);
      ghost var p := decoder.View();
      var out := decoder.Decode(chunks[k]);
      CoversOneMore(Concat(chunks[..k]), lines, p, chunks[k], out, decoder.View());
      lines := lines + out;
    }
    assert chunks[..|chunks|] == chunks;
    assert SplitLines(Concat(chunks) + "") == lines + SplitLines(Held(decoder.View()) + "");
    assert Concat(chunks) + "" == Concat(chunks) && Held(decoder.View()) + "" == Held(decoder.View());
    var last := decoder.Flush();
    lines := lines + last;
  }
}
