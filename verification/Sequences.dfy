// Sequences: concatenation, order and trimming.
module Sequences {

  function Flatten<T>(ss: seq<seq<T>>): seq<T> {
    if ss == [] then [] else Flatten(ss[..|ss| - 1]) + ss[|ss| - 1]
  }

  lemma FlattenOne<T>(ss: seq<seq<T>>, s: seq<T>)
    ensures Flatten(ss + [s]) == Flatten(ss) + s
  {
    assert (ss + [s])[..|ss|] == ss;
  }

  lemma Regroup<T>(a: seq<T>, b: seq<T>, c: seq<T>)
    ensures a + (b + c) == (a + b) + c
  {
  }

  lemma {:induction false} FlattenAppend<T>(ss: seq<seq<T>>, ts: seq<seq<T>>)
    ensures Flatten(ss + ts) == Flatten(ss) + Flatten(ts)
  {
    if ts == [] {
      assert ss + ts == ss;
    } else {
      var n := |ts| - 1;
      FlattenAppend(ss, ts[..n]);
      Regroup(ss, ts[..n], [ts[n]]);
      assert ts[..n] + [ts[n]] == ts;
      FlattenOne(ss + ts[..n], ts[n]);
      Regroup(Flatten(ss), Flatten(ts[..n]), ts[n]);
    }
  }

  lemma HeadIsElement<T>(s: seq<T>)
    ensures s != [] ==> s[0] in s
  {
  }

  predicate Increasing(s: seq<int>) {
    forall i, j :: 0 <= i < j < |s| ==> s[i] < s[j]
  }

  predicate Distinct<T(==)>(s: seq<T>) {
    forall i, j :: 0 <= i < j < |s| ==> s[i] != s[j]
  }

  // What is left after the leading elements of a kind.
  function SkipWhile<T>(kind: T -> bool, s: seq<T>): (r: seq<T>)
    ensures |r| <= |s|
    ensures r != [] ==> !kind(r[0])
  {
    if s != [] && kind(s[0]) then SkipWhile(kind, s[1..]) else s
  }

  // What is left before the trailing elements of a kind.
  function CutWhile<T>(kind: T -> bool, s: seq<T>): (r: seq<T>)
    ensures |r| <= |s|
    ensures r != [] ==> !kind(r[|r| - 1])
  {
    if s != [] && kind(s[|s| - 1]) then CutWhile(kind, s[..|s| - 1]) else s
  }
}
