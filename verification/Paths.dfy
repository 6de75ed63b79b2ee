/** Dot-notation field paths: splitting, joining, and the scanning splitter of forEach. */
module Paths {

  predicate DotFree(s: string) {
    '.' !in s
  }

  /** The first occurrence of c, or the length when there is none. */
  function Find(s: string, c: char): (k: nat)
    ensures k <= |s| && c !in s[..k]
    ensures k < |s| ==> s[k] == c
  {
    if s == [] || s[0] == c then 0 else 1 + Find(s[1..], c)
  }

  function FirstDot(s: string): (k: nat)
    ensures k <= |s| && DotFree(s[..k])
    ensures k < |s| ==> s[k] == '.'
  {
    Find(s, '.')
  }

  lemma {:induction false} FindAfter(head: string, c: char, rest: string)
    requires c !in head
    ensures Find(head + [c] + rest, c) == |head|
  {
    if head != [] {
      FindAfter(head[1..], c, rest);
      assert (head + [c] + rest)[1..] == head[1..] + [c] + rest;
    }
  }

  /** strings.Split(path, "."). */
  function Split(path: string): (parts: seq<string>)
    ensures |parts| > 0 && forall p :: p in parts ==> DotFree(p)
    ensures DotFree(path) <==> |parts| == 1
    decreases |path|
  {
    var k := FirstDot(path);
    if k == |path| then [path] else [path[..k]] + Split(path[k + 1..])
  }

  function Join(parts: seq<string>): string
    requires |parts| > 0
  {
    if |parts| == 1 then parts[0] else parts[0] + "." + Join(parts[1..])
  }

  lemma JoinCons(head: string, tail: seq<string>)
    requires |tail| > 0
    ensures Join([head] + tail) == head + "." + Join(tail)
  {
    assert ([head] + tail)[1..] == tail;
  }

  lemma SliceAt(s: string, start: nat, i: nat)
    requires start <= i < |s|
    ensures s[start..] == s[start..i] + [s[i]] + s[i + 1..]
  {
  }

  lemma {:induction false} JoinOfSplit(path: string)
    ensures Join(Split(path)) == path
    decreases |path|
  {
    hide Join;
    var k := FirstDot(path);
    if k < |path| {
      JoinOfSplit(path[k + 1..]);
      JoinCons(path[..k], Split(path[k + 1..]));
      SliceAt(path, 0, k);
    } else {
      JoinOne(path);
    }
  }

  lemma JoinOne(path: string)
    ensures Join([path]) == path
  {
  }

  lemma {:induction false} FirstDotOfDotFree(s: string)
    requires DotFree(s)
    ensures FirstDot(s) == |s|
  {
    if s != [] {
      FirstDotOfDotFree(s[1..]);
    }
  }

  lemma SplitStep(head: string, rest: string)
    requires DotFree(head)
    ensures Split(head + "." + rest) == [head] + Split(rest)
  {
    FindAfter(head, '.', rest);
    var s := head + "." + rest;
    assert s[..|head|] == head && s[|head| + 1..] == rest;
  }

  lemma {:induction false} SplitOfJoin(parts: seq<string>)
    requires |parts| > 0 && forall p :: p in parts ==> DotFree(p)
    ensures Split(Join(parts)) == parts
  {
    if |parts| == 1 {
      FirstDotOfDotFree(parts[0]);
    } else {
      hide Split;
      SplitOfJoin(parts[1..]);
      SplitStep(parts[0], Join(parts[1..]));
    }
  }

  /** Cutting at the first dot after start moves one part from the rest to the front. */
  lemma CutAt(path: string, start: nat, i: nat)
    requires start <= i < |path| && path[i] == '.' && DotFree(path[start..i])
    ensures Split(path[start..]) == [path[start..i]] + Split(path[i + 1..])
  {
    hide Split;
    SplitStep(path[start..i], path[i + 1..]);
    SliceAt(path, start, i);
  }

  /** The scan with a moving start gives the library split. */
  method SplitFieldPath(path: string) returns (parts: seq<string>)
    ensures parts == Split(path)
  {
    hide Split;
    parts := [];
    var start := 0;
    assert path[0..] == path;
    for i := 0 to |path|
      invariant start <= i && DotFree(path[start..i])
      invariant parts + Split(path[start..]) == Split(path)
    {
      if path[i] == '.' {
        CutAt(path, start, i);
        parts := parts + [path[start..i]];
        start := i + 1;
      }
    }
    LastPart(path[start..]);
    parts := parts + [path[start..]];
  }

  lemma LastPart(s: string)
    requires DotFree(s)
    ensures Split(s) == [s]
  {
    FirstDotOfDotFree(s);
  }
}
