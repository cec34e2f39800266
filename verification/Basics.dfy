/** Small things that several components share. */
module Basics {

  datatype Option<+T> = None | Some(value: T)

  /** A client address, as text. */
  datatype Ip = Ip(text: string)

  /** A cache key; the files of one cache entry share it. */
  datatype Key = Key(text: string)

  function Min(a: int, b: int): int { if a <= b then a else b }
  function Max(a: int, b: int): int { if a >= b then a else b }

  predicate SpaceOrTab(c: char) { c == ' ' || c == '\t' }

  ghost function KeysOf<T>(listing: seq<T>): (keys: set<T>) { set key | key in listing }

  /** The first position of a character at or after `from`, or the end. */
  function Find(text: string, c: char, from: nat): (i: nat)
    requires from <= |text|
    ensures from <= i <= |text| && (i < |text| ==> text[i] == c)
    ensures forall k :: from <= k < i ==> text[k] != c
    decreases |text| - from
  {
    if from == |text| || text[from] == c then from else Find(text, c, from + 1)
  }

  lemma {:induction false} SubsetSize<T>(some: set<T>, all: set<T>)
    requires some <= all
    ensures |some| <= |all|
    decreases |some|
  {
    if some != {} {
      var x :| x in some;
      SubsetSize(some - {x}, all - {x});
    }
  }
}
