/**
  `normalize_path` against the string rewriting of section 5.2.4 of RFC 3986, for every path: absolute ones, and
  rootless ones, which a URL may have behind a scheme without an authority.
 */
module UrlDots {
  import opened UrlPath

  // ---- the rewriting -------------------------------------------------------

  predicate StartsWith(s: string, prefix: string) { |prefix| <= |s| && s[..|prefix|] == prefix }

  /** Length of the first segment, with its initial "/" if any, up to the next "/". */
  function SegmentEnd(s: string, i: nat): (n: nat)
    requires i <= |s|
    ensures i <= n <= |s| && (forall j :: i <= j < n ==> s[j] != '/') && (n < |s| ==> s[n] == '/')
    decreases |s| - i
  {
    if i == |s| || s[i] == '/' then i else SegmentEnd(s, i + 1)
  }

  /** Without the last segment and its preceding "/", if any. */
  function DropLast(s: string): string {
    if s == "" then "" else if s[|s| - 1] == '/' then s[..|s| - 1] else DropLast(s[..|s| - 1])
  }

  /** Steps 2A to 2E, until the input buffer is empty. */
  function RemoveDots(input: string, output: string): string
    decreases |input|, if input == "/." || input == "/.." then 1 else 0
  {
    if input == "" then output
    else if StartsWith(input, "../") then RemoveDots(input[3..], output)
    else if StartsWith(input, "./") then RemoveDots(input[2..], output)
    else if StartsWith(input, "/./") then RemoveDots("/" + input[3..], output)
    else if input == "/." then RemoveDots("/", output)
    else if StartsWith(input, "/../") then RemoveDots("/" + input[4..], DropLast(output))
    else if input == "/.." then RemoveDots("/", DropLast(output))
    else if input == "." || input == ".." then RemoveDots("", output)
    else
      var n := SegmentEnd(input, if input[0] == '/' then 1 else 0);
      RemoveDots(input[n..], output + input[..n])
  }

  function RemoveDotSegments(path: string): string { RemoveDots(path, "") }

  // ---- one trace for both --------------------------------------------------

  /**
    The segments that stand, when ".." removes what stands before it; whether a segment was removed with nothing
    before it; and whether an empty one was.
   */
  datatype Trace = Trace(stack: seq<string>, removed: bool, rooted: bool)

  const START := Trace([], false, false)

  function Visit(t: Trace, segment: string): Trace {
    if segment == "." then t
    else if segment != ".." then t.(stack := t.stack + [segment])
    else if t.stack == [] then t
    else if |t.stack| == 1 then Trace([], true, t.rooted || t.stack[0] == "")
    else t.(stack := t.stack[..|t.stack| - 1])
  }

  function VisitAll(t: Trace, parts: seq<string>): Trace
    decreases |parts|
  {
    if parts == [] then t else VisitAll(Visit(t, parts[0]), parts[1..])
  }

  predicate Started(t: Trace) { t.removed || t.stack != [] }

  /** Segments, each with a "/" before it. */
  function Rooted(parts: seq<string>): string {
    if parts == [] then "" else "/" + parts[0] + Rooted(parts[1..])
  }

  /** The output buffer of the rewriting. */
  function Output(t: Trace): string {
    if t.removed then Rooted(t.stack) else Join(t.stack)
  }

  /** The stack of the program: an empty segment at the bottom is never popped. */
  function Standing(t: Trace): seq<string> {
    if t.rooted then [""] + t.stack else t.stack
  }

  // ---- the program's side --------------------------------------------------

  lemma VisitPushes(t: Trace, segment: string)
    ensures Standing(Visit(t, segment)) == Push(Standing(t), segment)
  {
    if t.rooted {
      assert segment != "." && segment != ".." ==> [""] + (t.stack + [segment]) == [""] + t.stack + [segment];
      assert t.stack != [] ==> ([""] + t.stack)[..|t.stack|] == [""] + t.stack[..|t.stack| - 1];
    }
  }

  lemma {:induction false} StackVisits(done: seq<string>, t: Trace, parts: seq<string>)
    requires Stack(done) == Standing(t)
    ensures Stack(done + parts) == Standing(VisitAll(t, parts))
    decreases |parts|
  {
    if parts == [] {
      assert done + parts == done;
    } else {
      var first, rest := parts[0], parts[1..];
      VisitPushes(t, first);
      assert (done + [first])[..|done|] == done;
      StackVisits(done + [first], Visit(t, first), rest);
      assert done + parts == done + [first] + rest;
    }
  }

  // ---- the rewriting's side ------------------------------------------------

  lemma {:induction false} RootedParts(parts: seq<string>)
    requires parts != []
    ensures "/" + Join(parts) == Rooted(parts)
  {
    if |parts| > 1 {
      RootedParts(parts[1..]);
      assert "/" + (parts[0] + "/" + Join(parts[1..])) == "/" + parts[0] + ("/" + Join(parts[1..]));
    }
  }

  lemma {:induction false} RootedAppend(parts: seq<string>, segment: string)
    ensures Rooted(parts + [segment]) == Rooted(parts) + "/" + segment
  {
    if parts == [] {
      assert Rooted([segment]) == "/" + segment + "";
    } else {
      assert (parts + [segment])[1..] == parts[1..] + [segment];
      RootedAppend(parts[1..], segment);
    }
  }

  lemma {:induction false} DropLastPlain(s: string, segment: string)
    requires Plain(segment)
    ensures DropLast(s + "/" + segment) == s
  {
    var t := s + "/" + segment;
    if segment == "" {
      assert t[..|t| - 1] == s;
    } else {
      DropLastPlain(s, segment[..|segment| - 1]);
      assert t[..|t| - 1] == s + "/" + segment[..|segment| - 1];
    }
  }

  lemma {:induction false} JoinAppend(parts: seq<string>, segment: string)
    requires parts != []
    ensures Join(parts + [segment]) == Join(parts) + "/" + segment
  {
    assert (parts + [segment])[1..] == parts[1..] + [segment];
    if |parts| > 1 {
      JoinAppend(parts[1..], segment);
      assert parts[0] + "/" + (Join(parts[1..]) + "/" + segment) == parts[0] + "/" + Join(parts[1..]) + "/" + segment;
    }
  }

  lemma {:induction false} DropLastOnly(segment: string)
    requires Plain(segment)
    ensures DropLast(segment) == ""
  {
    if segment != "" {
      assert segment[|segment| - 1] in segment;
      DropLastOnly(segment[..|segment| - 1]);
    }
  }

  /** What the rewriting does to its output buffer for one segment. */
  function Move(output: string, segment: string): string {
    if segment == "." then output else if segment == ".." then DropLast(output) else output + "/" + segment
  }

  lemma VisitMoves(t: Trace, segment: string)
    requires Started(t) && AllPlain(t.stack) && Plain(segment)
    ensures var t' := Visit(t, segment);
      Started(t') && AllPlain(t'.stack) && Output(t') == Move(Output(t), segment)
  {
    if segment == ".." {
      if t.stack != [] { LastMoves(t, t.stack[..|t.stack| - 1], t.stack[|t.stack| - 1]); }
    } else if segment != "." {
      if t.removed { RootedAppend(t.stack, segment); } else { JoinAppend(t.stack, segment); }
    }
  }

  lemma LastMoves(t: Trace, init: seq<string>, last: string)
    requires t.stack == init + [last] && Plain(last)
    ensures DropLast(Output(t)) == if t.removed || init == [] then Rooted(init) else Join(init)
  {
    if t.removed {
      RootedAppend(init, last);
      DropLastPlain(Rooted(init), last);
    } else if init == [] {
      DropLastOnly(last);
    } else {
      JoinAppend(init, last);
      DropLastPlain(Join(init), last);
    }
  }

  /** What the rewriting does with the first of several segments. */
  lemma RewriteFirst(segment: string, rest: string, output: string)
    requires Plain(segment) && StartsWith(rest, "/")
    ensures RemoveDots("/" + segment + rest, output) == RemoveDots(rest, Move(output, segment))
  {
    var input := "/" + segment + rest;
    if segment == "." {
      DotRule(input);
      assert input[..3] == "/./" && "/" + input[3..] == rest;
    } else if segment == ".." {
      DotDotRule(input);
      assert input[..4] == "/../" && "/" + input[4..] == rest;
    } else {
      MoveSegment(segment, rest, output);
    }
  }

  lemma DotRule(input: string)
    requires StartsWith(input, "/./")
    ensures forall output :: RemoveDots(input, output) == RemoveDots("/" + input[3..], output)
  {
    assert input[0] == input[..3][0] == '/';
    assert !StartsWith(input, "../") && !StartsWith(input, "./");
  }

  lemma DotDotRule(input: string)
    requires StartsWith(input, "/../")
    ensures forall output :: RemoveDots(input, output) == RemoveDots("/" + input[4..], DropLast(output))
  {
    assert input[0] == input[..4][0] == '/' && input[2] == input[..4][2] == '.';
    assert !StartsWith(input, "../") && !StartsWith(input, "./") && !StartsWith(input, "/./");
  }

  lemma FinalDotRules(output: string)
    ensures RemoveDots("/.", output) == RemoveDots("/", output)
    ensures RemoveDots("/..", output) == RemoveDots("/", DropLast(output))
  {
    assert "/."[0] == '/' && "/.."[0] == '/' && "/.."[2] == '.';
    assert "./"[0] == '.' && "../"[0] == '.' && "/./"[2] == '/';
    assert "/."[..2][0] == '/' && "/.."[..2][0] == '/' && "/.."[..3][0] == '/' && "/.."[..3][2] == '.';
  }

  lemma {:induction false} MoveSegment(segment: string, rest: string, output: string)
    requires Plain(segment) && !IsDot(segment) && (rest == "" || rest[0] == '/')
    ensures RemoveDots("/" + segment + rest, output) == RemoveDots(rest, output + "/" + segment)
  {
    var input, n := "/" + segment + rest, 1 + |segment|;
    assert input[..n] == "/" + segment && input[n..] == rest;
    assert forall j :: 1 <= j < n ==> input[j] == segment[j - 1] && segment[j - 1] in segment;
    assert SegmentEnd(input, 1) == n;
    NotDotInput(segment, rest);
    assert output + "/" + segment == output + ("/" + segment);
  }

  /** A segment other than "." and ".." triggers none of the dot rules. */
  lemma NotDotInput(segment: string, rest: string)
    requires Plain(segment) && !IsDot(segment) && (rest == "" || rest[0] == '/')
    ensures var input := "/" + segment + rest;
      && !StartsWith(input, "../") && !StartsWith(input, "./")
      && !StartsWith(input, "/./") && !StartsWith(input, "/../")
      && input != "/." && input != "/.." && input != "." && input != ".."
  {
    var input := "/" + segment + rest;
    assert input[0] == '/';
    assert !StartsWith(input, "../") && !StartsWith(input, "./");
    NotDot(segment, rest);
    NotDotDot(segment, rest);
  }

  lemma NotDot(segment: string, rest: string)
    requires Plain(segment) && segment != "." && (rest == "" || rest[0] == '/')
    ensures var input := "/" + segment + rest; !StartsWith(input, "/./") && input != "/."
  {
    var input := "/" + segment + rest;
    if segment != "" {
      assert input[1] == segment[0];
      if |segment| > 1 {
        assert input[2] == segment[1] && segment[1] in segment;
      } else {
        assert segment == [segment[0]];
      }
    } else if rest != "" {
      assert input[1] == rest[0];
    }
  }

  lemma NotDotDot(segment: string, rest: string)
    requires Plain(segment) && segment != ".." && (rest == "" || rest[0] == '/')
    ensures var input := "/" + segment + rest; !StartsWith(input, "/../") && input != "/.."
  {
    var input := "/" + segment + rest;
    if |segment| > 2 {
      assert input[3] == segment[2] && segment[2] in segment;
    } else if |segment| == 2 {
      assert input[1] == segment[0] && input[2] == segment[1];
      assert segment == [segment[0], segment[1]];
    } else if rest != "" {
      assert input[1 + |segment|] == rest[0];
    } else {
      assert |input| <= 2;
    }
  }

  /** The last segment: a dot segment leaves a "/". */
  lemma RewriteLast(segment: string, output: string)
    requires Plain(segment)
    ensures RemoveDots("/" + segment, output) == Move(output, segment) + (if IsDot(segment) then "/" else "")
  {
    FinalDotRules(output);
    if segment == "." {
      RewriteSlash(output);
      assert "/" + segment == "/.";
    } else if segment == ".." {
      RewriteSlash(DropLast(output));
      assert "/" + segment == "/..";
    } else {
      MoveSegment(segment, "", output);
      assert "/" + segment + "" == "/" + segment;
      assert Move(output, segment) + "" == Move(output, segment);
    }
  }

  lemma RewriteSlash(output: string)
    ensures RemoveDots("/", output) == output + "/"
  {
    assert "/"[..1] == "/" && "/"[1..] == "";
  }

  function MoveAll(output: string, parts: seq<string>): string
    decreases |parts|
  {
    if parts == [] then output else MoveAll(Move(output, parts[0]), parts[1..])
  }

  /** The rewriting of segments behind what has been moved to the output already. */
  lemma {:induction false} RewriteAll(parts: seq<string>, output: string)
    requires parts != [] && AllPlain(parts)
    ensures RemoveDots(Rooted(parts), output)
      == MoveAll(output, parts) + (if IsDot(parts[|parts| - 1]) then "/" else "")
    decreases |parts|
  {
    var first, rest := parts[0], parts[1..];
    if rest == [] {
      RewriteOnly(first, output);
      assert parts == [first];
    } else {
      RewriteNext(first, rest, output);
      RewriteAll(rest, Move(output, first));
      assert parts == [first] + rest;
    }
  }

  lemma {:induction false} RewriteOnly(segment: string, output: string)
    requires Plain(segment)
    ensures RemoveDots(Rooted([segment]), output) == Move(output, segment) + (if IsDot(segment) then "/" else "")
  {
    RewriteLast(segment, output);
    assert Rooted([segment]) == "/" + segment;
  }

  lemma {:induction false} RewriteNext(segment: string, rest: seq<string>, output: string)
    requires Plain(segment) && rest != []
    ensures RemoveDots(Rooted([segment] + rest), output) == RemoveDots(Rooted(rest), Move(output, segment))
  {
    RewriteFirst(segment, Rooted(rest), output);
    assert ([segment] + rest)[1..] == rest;
    assert Rooted([segment] + rest) == "/" + segment + Rooted(rest);
  }

  lemma {:induction false} VisitsMove(t: Trace, parts: seq<string>)
    requires Started(t) && AllPlain(t.stack) && AllPlain(parts)
    ensures MoveAll(Output(t), parts) == Output(VisitAll(t, parts))
    decreases |parts|
  {
    if parts != [] {
      VisitMoves(t, parts[0]);
      VisitsMove(Visit(t, parts[0]), parts[1..]);
    }
  }

  /** Dot segments at the start of a rootless path go without a trace. */
  lemma LeadingDot(segment: string, rest: string)
    requires IsDot(segment)
    ensures RemoveDots(segment + "/" + rest, "") == RemoveDots(rest, "") && RemoveDots(segment, "") == ""
  {
    var input := segment + "/" + rest;
    if segment == "." {
      assert input[..2] == "./" && input[2..] == rest && input[1] == '/';
    } else {
      assert input[..3] == "../" && input[3..] == rest;
    }
    assert input != "";
  }

  /** The first segment of a rootless path is moved without a "/". */
  lemma {:induction false} MoveFirst(segment: string, rest: string)
    requires Plain(segment) && !IsDot(segment) && segment != "" && (rest == "" || rest[0] == '/')
    ensures RemoveDots(segment + rest, "") == RemoveDots(rest, segment)
  {
    var input, n := segment + rest, |segment|;
    FirstIsNoRule(segment, rest);
    FirstEnds(segment, rest);
    MoveRule(input, n);
    assert input[..n] == segment && input[n..] == rest;
  }

  /** Step 2E for a rootless input and an empty output buffer. */
  lemma {:induction false} MoveRule(input: string, n: nat)
    requires input != "" && input[0] != '/' && !StartsWith(input, "../") && !StartsWith(input, "./")
    requires input != "." && input != ".." && SegmentEnd(input, 0) == n
    ensures RemoveDots(input, "") == RemoveDots(input[n..], input[..n])
  {
    NotRooted(input);
    assert "" + input[..n] == input[..n];
  }

  lemma {:induction false} NotRooted(input: string)
    requires input != "" && input[0] != '/'
    ensures !StartsWith(input, "/./") && !StartsWith(input, "/../") && input != "/." && input != "/.."
  {
    assert |input| >= 3 ==> input[..3][0] == input[0];
    assert |input| >= 4 ==> input[..4][0] == input[0];
    assert "/."[0] == '/' && "/.."[0] == '/' && "/./"[0] == '/' && "/../"[0] == '/';
  }

  lemma FirstEnds(segment: string, rest: string)
    requires Plain(segment) && (rest == "" || rest[0] == '/')
    ensures SegmentEnd(segment + rest, 0) == |segment|
  {
    var input := segment + rest;
    assert forall j :: 0 <= j < |segment| ==> input[j] == segment[j] && segment[j] in segment;
    assert rest != "" ==> input[|segment|] == rest[0];
    assert SegmentEnd(input, 0) <= |segment|;
  }

  lemma FirstIsNoRule(segment: string, rest: string)
    requires Plain(segment) && !IsDot(segment) && segment != "" && (rest == "" || rest[0] == '/')
    ensures var input := segment + rest;
      && input != "" && input[0] != '/' && !StartsWith(input, "../") && !StartsWith(input, "./")
      && input != "." && input != ".."
  {
    var input := segment + rest;
    assert segment[0] in segment && input[0] == segment[0];
    if |segment| == 1 {
      assert segment == [segment[0]];
    } else {
      assert segment[1] in segment && input[1] == segment[1];
      if |segment| == 2 {
        assert segment == [segment[0], segment[1]];
      } else {
        assert segment[2] in segment && input[2] == segment[2];
      }
    }
  }

  predicate AllDots(parts: seq<string>) { forall i :: 0 <= i < |parts| ==> IsDot(parts[i]) }

  /** The "/" the rewriting leaves for a dot segment at the end, unless there is nothing else. */
  function EndSlash(parts: seq<string>): string
    requires parts != []
  {
    if IsDot(parts[|parts| - 1]) && !AllDots(parts) then "/" else ""
  }

  lemma {:induction false} RewriteStart(parts: seq<string>)
    requires parts != [] && AllPlain(parts)
    ensures RemoveDots(Join(parts), "") == Output(VisitAll(START, parts)) + EndSlash(parts)
  {
    var first, rest := parts[0], parts[1..];
    assert parts == [first] + rest;
    if IsDot(first) {
      LeadingDot(first, Join(rest));
      if rest != [] {
        RewriteStart(rest);
        assert AllDots(parts) <==> AllDots(rest);
      }
    } else {
      RewriteBehind(first, rest);
    }
  }

  lemma RewriteBehind(first: string, rest: seq<string>)
    requires Plain(first) && !IsDot(first) && AllPlain(rest)
    ensures var parts := [first] + rest;
      RemoveDots(Join(parts), "") == Output(VisitAll(START, parts)) + EndSlash(parts)
  {
    var parts, t := [first] + rest, Trace([first], false, false);
    assert parts[1..] == rest && Visit(START, first) == t && Output(t) == first && !IsDot(parts[0]);
    JoinFirst(first, rest);
    if first != "" {
      MoveFirst(first, Rooted(rest));
    } else {
      assert "" + Rooted(rest) == Rooted(rest);
    }
    if rest != [] {
      RewriteAll(rest, first);
      VisitsMove(t, rest);
      assert parts[|parts| - 1] == rest[|rest| - 1];
    }
  }

  lemma JoinFirst(first: string, rest: seq<string>)
    ensures Join([first] + rest) == first + Rooted(rest)
  {
    if rest != [] {
      RootedParts(rest);
      assert ([first] + rest)[1..] == rest;
      assert first + "/" + Join(rest) == first + ("/" + Join(rest));
    }
  }

  // ---- the comparison ------------------------------------------------------

  /**
    The path starts with a segment that a ".." removes, segments stand after all, and none removed with nothing
    before it was empty.
   */
  predicate LosesRoot(path: string) {
    var t := VisitAll(START, Split(path));
    t.removed && !t.rooted && t.stack != []
  }

  /**
    For every path, the section 5.2.4 rewriting is the normalised path, with one more "/" in front exactly if the path
    loses its root, and one more at the end exactly if the last segment is "." or ".." and not all are.
   */
  lemma AgreesWithRfc(path: string)
    ensures RemoveDotSegments(path)
      == (if LosesRoot(path) then "/" else "") + Normalized(path) + EndSlash(Split(path))
  {
    var parts := Split(path);
    var t := VisitAll(START, parts);
    JoinSplit(path);
    RewriteStart(parts);
    StackVisits([], START, parts);
    assert [] + parts == parts;
    SameBody(t, parts);
  }

  lemma SameBody(t: Trace, parts: seq<string>)
    requires t == VisitAll(START, parts)
    ensures Output(t) == (if t.removed && !t.rooted && t.stack != [] then "/" else "") + Join(Standing(t))
  {
    RootedImpliesRemoved(START, parts);
    if t.stack != [] {
      RootedParts(t.stack);
    }
  }

  lemma {:induction false} RootedImpliesRemoved(t: Trace, parts: seq<string>)
    requires t.rooted ==> t.removed
    ensures VisitAll(t, parts).rooted ==> VisitAll(t, parts).removed
    decreases |parts|
  {
    if parts != [] {
      RootedImpliesRemoved(Visit(t, parts[0]), parts[1..]);
    }
  }

  /** The two agree outright exactly if neither "/" is missing. */
  lemma AgreesExactly(path: string)
    ensures RemoveDotSegments(path) == Normalized(path) <==> !LosesRoot(path) && EndSlash(Split(path)) == ""
  {
    AgreesWithRfc(path);
    assert "" + Normalized(path) + "" == Normalized(path);
  }

  /** An absolute path keeps its root, so only the final "/" can be missing, and is after any final dot segment. */
  lemma AbsoluteAgrees(path: string)
    requires StartsWith(path, "/")
    ensures !LosesRoot(path)
    ensures RemoveDotSegments(path)
      == Normalized(path) + (var parts := Split(path); if IsDot(parts[|parts| - 1]) then "/" else "")
  {
    var parts := Split(path);
    assert path[0] == '/' && parts == [""] + Split(path[1..]);
    assert Visit(START, "") == Trace([""], false, false);
    assert parts[1..] == Split(path[1..]) && !IsDot(parts[0]);
    RootStays(Trace([""], false, false), parts[1..]);
    AgreesWithRfc(path);
    assert "" + Normalized(path) == Normalized(path);
  }

  /** The root, once there, stands or has been removed as an empty segment. */
  lemma {:induction false} RootStays(t: Trace, parts: seq<string>)
    requires if t.removed then t.rooted else t.stack != [] && t.stack[0] == ""
    ensures var t' := VisitAll(t, parts); if t'.removed then t'.rooted else t'.stack != [] && t'.stack[0] == ""
    decreases |parts|
  {
    if parts != [] {
      RootStays(Visit(t, parts[0]), parts[1..]);
    }
  }

  /** A rootless path that loses its root, as in "mailto:a/../b": "b", where the rewriting gives "/b". */
  lemma RootlessExample(first: string, last: string)
    requires Plain(first) && Plain(last) && !IsDot(first) && !IsDot(last) && first != ""
    ensures var path := first + "/../" + last; Normalized(path) == last && RemoveDotSegments(path) == "/" + last
  {
    var parts := [first, "..", last];
    ExampleJoins(first, last);
    SplitJoin(parts);
    ExampleVisits(first, last);
    StackVisits([], START, parts);
    assert [] + parts == parts;
    RewriteStart(parts);
    assert parts[|parts| - 1] == last;
    assert Rooted([last]) == "/" + last;
  }

  lemma ExampleJoins(first: string, last: string)
    ensures Join([first, "..", last]) == first + "/../" + last
  {
    assert [first, "..", last][1..] == ["..", last] && ["..", last][1..] == [last];
    assert Join(["..", last]) == ".." + "/" + last;
    assert "/../" == "/" + (".." + "/");
    assert first + "/" + (".." + "/" + last) == first + ("/" + (".." + "/")) + last;
  }

  lemma ExampleVisits(first: string, last: string)
    requires !IsDot(first) && !IsDot(last) && first != ""
    ensures VisitAll(START, [first, "..", last]) == Trace([last], true, false)
  {
    var a, b := Trace([first], false, false), Trace([], true, false);
    assert [first, "..", last][1..] == ["..", last] && ["..", last][1..] == [last] && [last][1..] == [];
    assert Visit(START, first) == a && Visit(a, "..") == b;
    assert Visit(b, last) == Trace([last], true, false);
    assert VisitAll(b, [last]) == VisitAll(Visit(b, last), []);
    assert VisitAll(a, ["..", last]) == VisitAll(b, [last]);
  }
}
