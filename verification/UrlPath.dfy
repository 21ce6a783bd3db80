/** Path normalisation (`normalize_path` in `_urlparse.py`): a stack over the segments of a path. */
module UrlPath {

  // ---- segments ------------------------------------------------------------

  /** `path.split("/")`. */
  function Split(s: string): (parts: seq<string>)
    ensures |parts| >= 1
  {
    if s == "" then [""]
    else
      var rest := Split(s[1..]);
      if s[0] == '/' then [""] + rest else [[s[0]] + rest[0]] + rest[1..]
  }

  /** `"/".join(parts)`. */
  function Join(parts: seq<string>): string {
    if parts == [] then "" else if |parts| == 1 then parts[0] else parts[0] + "/" + Join(parts[1..])
  }

  predicate Plain(segment: string) { '/' !in segment }

  ghost predicate AllPlain(parts: seq<string>) { forall i :: 0 <= i < |parts| ==> Plain(parts[i]) }

  lemma {:induction false} JoinSplit(s: string)
    ensures Join(Split(s)) == s && AllPlain(Split(s))
  {
    if s != "" {
      JoinSplit(s[1..]);
      var rest := Split(s[1..]);
      if s[0] == '/' {
        assert ([""] + rest)[1..] == rest;
        assert s == "" + "/" + s[1..];
      } else {
        var parts := [[s[0]] + rest[0]] + rest[1..];
        assert parts[1..] == rest[1..];
        assert s == [s[0]] + s[1..];
        if |rest| > 1 {
          assert [s[0]] + (rest[0] + "/" + Join(rest[1..])) == ([s[0]] + rest[0]) + "/" + Join(rest[1..]);
        }
      }
    }
  }

  lemma {:induction false} SplitSlash(segment: string, s: string)
    requires Plain(segment)
    ensures Split(segment + "/" + s) == [segment] + Split(s)
    decreases |segment|
  {
    var t := segment + "/" + s;
    if segment == "" {
      assert t[1..] == s;
    } else {
      assert t[1..] == segment[1..] + "/" + s;
      SplitSlash(segment[1..], s);
      assert segment == [segment[0]] + segment[1..];
    }
  }

  lemma {:induction false} SplitPlain(segment: string)
    requires Plain(segment)
    ensures Split(segment) == [segment]
  {
    if segment != "" {
      SplitPlain(segment[1..]);
      assert segment == [segment[0]] + segment[1..];
    }
  }

  lemma {:induction false} SplitJoin(parts: seq<string>)
    requires parts != [] && AllPlain(parts)
    ensures Split(Join(parts)) == parts
  {
    if |parts| == 1 {
      SplitPlain(parts[0]);
    } else {
      SplitJoin(parts[1..]);
      SplitSlash(parts[0], Join(parts[1..]));
      assert parts == [parts[0]] + parts[1..];
    }
  }

  predicate IsDot(segment: string) { segment == "." || segment == ".." }

  ghost predicate NoDots(parts: seq<string>) { forall i :: 0 <= i < |parts| ==> !IsDot(parts[i]) }

  // ---- the stack -----------------------------------------------------------

  /** What one segment does to the output. The root segment is never popped. */
  function Push(output: seq<string>, segment: string): seq<string> {
    if segment == "." then output
    else if segment == ".." then
      (if output != [] && output != [""] then output[..|output| - 1] else output)
    else output + [segment]
  }

  function Stack(parts: seq<string>): seq<string> {
    if parts == [] then [] else Push(Stack(parts[..|parts| - 1]), parts[|parts| - 1])
  }

  function Normalized(path: string): string { Join(Stack(Split(path))) }

  lemma {:induction false} StackIsClean(parts: seq<string>)
    requires AllPlain(parts)
    ensures AllPlain(Stack(parts)) && NoDots(Stack(parts))
  {
    if parts != [] {
      StackIsClean(parts[..|parts| - 1]);
    }
  }

  lemma {:induction false} StackKeeps(parts: seq<string>)
    requires NoDots(parts)
    ensures Stack(parts) == parts
  {
    if parts != [] {
      StackKeeps(parts[..|parts| - 1]);
      assert parts == parts[..|parts| - 1] + [parts[|parts| - 1]];
    }
  }

  lemma {:induction false} NoDotCharacter(s: string)
    requires '.' !in s
    ensures NoDots(Split(s)) && forall i :: 0 <= i < |Split(s)| ==> '.' !in Split(s)[i]
  {
    assert forall x: string :: IsDot(x) ==> x[0] == '.' && x[0] in x;
    if s != "" {
      NoDotCharacter(s[1..]);
    }
  }

  /** The method, with its two fast returns, is the stack over all segments. */
  method NormalizePath(path: string) returns (r: string)
    ensures r == Normalized(path)
  {
    JoinSplit(path);
    if '.' !in path {
      NoDotCharacter(path);
      StackKeeps(Split(path));
      return path;
    }
    var components := Split(path);
    if "." !in components && ".." !in components {
      StackKeeps(components);
      return path;
    }
    var output: seq<string> := [];
    for i := 0 to |components|
      invariant output == Stack(components[..i])
    {
      assert components[..i + 1][..i] == components[..i];
      var component := components[i];
      if component == "." {
      } else if component == ".." {
        if output != [] && output != [""] {
          output := output[..|output| - 1];
        }
      } else {
        output := output + [component];
      }
    }
    assert components[..|components|] == components;
    r := Join(output);
  }

  /** Normalising once is enough, and leaves no dot segment. */
  lemma NormalizedIsFixed(path: string)
    ensures NoDots(Split(Normalized(path)))
    ensures Normalized(Normalized(path)) == Normalized(path)
  {
    var out := Stack(Split(path));
    JoinSplit(path);
    StackIsClean(Split(path));
    if out == [] {
      assert Split("") == [""];
      StackKeeps([""]);
    } else {
      SplitJoin(out);
      StackKeeps(out);
    }
  }
}
