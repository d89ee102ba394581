/** Notions that several of the models share. */
module Basics {

  datatype Maybe<T> = Nothing | Just(value: T)

  /** The two sides of a binary tree: the model has one text for each pair of mirrored cases. */
  datatype Dir = L | R {
    function Flip(): Dir { if L? then R else L }
  }

  function Pow2(k: nat): (p: nat)
    ensures p > 0
  {
    if k == 0 then 1 else 2 * Pow2(k - 1)
  }

  /** `now` is `was` with x put in somewhere. */
  ghost predicate Joined<T>(was: seq<T>, x: T, now: seq<T>) {
    exists i | 0 <= i <= |was| :: now == was[..i] + [x] + was[i..]
  }

  lemma JoinedAt<T>(a: seq<T>, x: T, b: seq<T>)
    ensures Joined(a + b, x, a + [x] + b)
  {
    assert (a + b)[..|a|] == a && (a + b)[|a|..] == b;
  }

  lemma JoinedMember<T>(was: seq<T>, x: T, now: seq<T>)
    ensures Joined(was, x, now) ==> x in now
  {
    if Joined(was, x, now) {
      var i :| 0 <= i <= |was| && now == was[..i] + [x] + was[i..];
      assert now[i] == x;
    }
  }

  lemma Associate<T>(a: seq<T>, b: seq<T>, c: seq<T>)
    ensures a + (b + c) == (a + b) + c
  {
  }
}
