/** Small facts about sequences that several components share. */
module Lists {

  datatype Option<+T> = None | Some(value: T)

  ghost predicate Distinct<T>(s: seq<T>) {
    forall i, j :: 0 <= i < j < |s| ==> s[i] != s[j]
  }

  /** The elements of `s` that lie in `keep`, in the order of `s`. */
  function Select<T(==,!new)>(s: seq<T>, keep: set<T>): (r: seq<T>)
    ensures forall x :: x in r <==> x in s && x in keep
    ensures |r| <= |s|
  {
    if s == [] then []
    else
      var last := s[|s| - 1];
      assert s == s[..|s| - 1] + [last];
      Select(s[..|s| - 1], keep) + (if last in keep then [last] else [])
  }

  lemma {:induction false} SelectDistinct<T(!new)>(s: seq<T>, keep: set<T>)
    requires Distinct(s)
    ensures Distinct(Select(s, keep))
  {
    if s != [] {
      SelectDistinct(s[..|s| - 1], keep);
    }
  }

  lemma SelectAppend<T(!new)>(s: seq<T>, x: T, keep: set<T>)
    ensures Select(s + [x], keep) == Select(s, keep) + (if x in keep then [x] else [])
  {
    assert (s + [x])[..|s|] == s;
  }

  lemma ConcatDistinct<T(!new)>(a: seq<T>, b: seq<T>)
    requires Distinct(a) && Distinct(b) && forall x :: x in a ==> x !in b
    ensures Distinct(a + b)
  {
    forall i, j | 0 <= i < j < |a + b| ensures (a + b)[i] != (a + b)[j] {
      assert i < |a| <= j ==> (a + b)[i] in a && (a + b)[j] in b;
    }
  }

  /** The list without the first occurrence of `x`. */
  function Remove<T(==,!new)>(s: seq<T>, x: T): (r: seq<T>)
    requires x in s
    ensures |r| == |s| - 1
    ensures forall y :: y in r ==> y in s
  {
    if s[0] == x then s[1..] else [s[0]] + Remove(s[1..], x)
  }

  lemma {:induction false} RemoveDistinct<T(!new)>(s: seq<T>, x: T)
    requires x in s && Distinct(s)
    ensures Distinct(Remove(s, x))
    ensures forall y :: y in Remove(s, x) <==> y in s && y != x
  {
    if s[0] != x {
      RemoveDistinct(s[1..], x);
      var t := Remove(s[1..], x);
      assert s[0] !in t;
      assert forall y :: y in s <==> y == s[0] || y in s[1..];
    }
  }

  /** The first index at which `s` holds an element of `wanted`. */
  function FirstIn<T(==)>(s: seq<T>, wanted: set<T>): (r: Option<nat>)
    ensures r.Some? ==> r.value < |s| && s[r.value] in wanted && forall i :: 0 <= i < r.value ==> s[i] !in wanted
    ensures r.None? ==> forall i :: 0 <= i < |s| ==> s[i] !in wanted
  {
    if s == [] then None
    else if s[0] in wanted then Some(0)
    else
      match FirstIn(s[1..], wanted)
      case None => None
      case Some(i) => Some(i + 1)
  }

  function DeleteAt<T>(s: seq<T>, i: nat): (r: seq<T>)
    requires i < |s|
    ensures |r| == |s| - 1
  {
    s[..i] + s[i + 1..]
  }

  lemma DeleteAtDistinct<T(!new)>(s: seq<T>, i: nat)
    requires i < |s| && Distinct(s)
    ensures Distinct(DeleteAt(s, i))
    ensures forall y :: y in DeleteAt(s, i) <==> y in s && y != s[i]
  {
    var r := DeleteAt(s, i);
    forall y | y in s && y != s[i] ensures y in r {
      var j :| 0 <= j < |s| && s[j] == y;
      assert r[if j < i then j else j - 1] == y;
    }
  }

  lemma SelectStep<T(!new)>(s: seq<T>, i: nat, keep: set<T>)
    requires i < |s|
    ensures Select(s[..i + 1], keep) == Select(s[..i], keep) + (if s[i] in keep then [s[i]] else [])
  {
    assert s[..i + 1] == s[..i] + [s[i]];
    SelectAppend(s[..i], s[i], keep);
  }

  lemma TakeStep<T>(s: seq<T>, i: nat)
    requires i < |s|
    ensures s[..i + 1] == s[..i] + [s[i]]
  {
  }

  function Elements<T>(s: seq<T>): set<T> { set x | x in s }

  lemma {:induction false} ElementsOfDistinct<T>(s: seq<T>)
    requires Distinct(s)
    ensures |Elements(s)| == |s|
  {
    if s != [] {
      ElementsOfDistinct(s[1..]);
      assert Elements(s) == Elements(s[1..]) + {s[0]};
    }
  }

  lemma {:induction false} ElementsCount<T>(s: seq<T>)
    ensures |Elements(s)| <= |s|
  {
    if s != [] {
      ElementsCount(s[1..]);
      assert Elements(s) == Elements(s[1..]) + {s[0]};
    }
  }

  lemma SubsetSize<T>(a: set<T>, b: set<T>)
    requires a <= b
    ensures |a| <= |b|
  {
    assert b == a + (b - a);
  }

  /** A list that holds all elements of one without repeats is at least as long; with one element more, longer. */
  lemma NoneMissing<T>(a: seq<T>, b: seq<T>, extra: set<T>)
    requires Distinct(a) && (forall x :: x in a ==> x in b)
    requires extra <= Elements(b) && extra !! Elements(a)
    ensures |a| + |extra| <= |b|
  {
    ElementsOfDistinct(a);
    ElementsCount(b);
    SubsetSize(Elements(a) + extra, Elements(b));
  }

  lemma OneLonger<T>(a: seq<T>, b: seq<T>, d: T)
    requires Distinct(a) && (forall x :: x in a ==> x in b) && d in b && d !in a
    ensures |a| < |b|
  {
    NoneMissing(a, b, {d});
  }

  lemma OneMoreMember<T>(a: seq<T>, b: seq<T>, d: T)
    requires Distinct(a) && d in b && d !in a && |b| <= |a|
    ensures exists x :: x in a && x !in b
  {
    if forall x :: x in a ==> x in b {
      OneLonger(a, b, d);
    }
  }
}
