/** Where fts_build of src/fts.c gives up: the errno that a failed fts_stat has left behind ends the whole walk. */
module FtsStop {
  import opened FtsSpec

  const TOP := Place([], 0, "")

  /** fts_build opens the directory e, returned as the n-th node: it is listed by the caller or entered. */
  predicate Builds(w: World, e: Event, n: nat, dev: bv64) {
    e.info == D && e.target.Directory? && w.Opens(e.target.id, e.path)
    && (w.list(n) > 0 || !(w.skip(n) || (w.xdev && e.target.id.dev != dev)))
  }

  /** ...and gives up: nothing is returned after e. */
  predicate Halts(w: World, e: Event, n: nat, dev: bv64) {
    Builds(w, e, n, dev) && Spoiled(w, e.target.id, e.level)
  }

  /** sp->fts_dev, that of the last root. */
  function DevAfter(e: Event, dev: bv64): bv64 {
    if e.level > 0 then dev else if e.target.Directory? then e.target.id.dev else 0
  }

  /** What is returned of the walk a, whose first event is the n-th node. */
  function Cut(w: World, a: List, n: nat, dev: bv64): List {
    match a
    case Nil => Nil
    case Cons(e, t) =>
      var d := DevAfter(e, dev);
      Cons(e, if Halts(w, e, n, d) then Nil else Cut(w, t, n + 1, d))
  }

  /** fts_build gives up somewhere in the walk. */
  predicate Halting(w: World, a: List, n: nat, dev: bv64) {
    match a
    case Nil => false
    case Cons(e, t) =>
      var d := DevAfter(e, dev);
      Halts(w, e, n, d) || Halting(w, t, n + 1, d)
  }

  lemma CutNothing(w: World, n: nat, dev: bv64)
    ensures Cut(w, Nil, n, dev) == Nil
  {
  }

  lemma CutStep(w: World, e: Event, t: List, n: nat, dev: bv64)
    ensures var d := DevAfter(e, dev);
            Cut(w, Cons(e, t), n, dev) == Cons(e, if Halts(w, e, n, d) then Nil else Cut(w, t, n + 1, d))
  {
  }

  lemma {:induction false} NotCut(w: World, a: List, n: nat, dev: bv64)
    requires !Halting(w, a, n, dev)
    ensures Cut(w, a, n, dev) == a
  {
    if a.Cons? {
      NotCut(w, a.tail, n + 1, DevAfter(a.head, dev));
    }
  }

  function LastOf(a: List): Event
    requires a.Cons?
  {
    if a.tail.Cons? then LastOf(a.tail) else a.head
  }

  /** Cut off, a walk ends with the directory that was not read to its end. */
  lemma {:induction false} CutEnds(w: World, a: List, n: nat, dev: bv64)
    requires Halting(w, a, n, dev)
    ensures var c := Cut(w, a, n, dev); c.Cons? && LastOf(c).info == D
  {
    var d := DevAfter(a.head, dev);
    if !Halts(w, a.head, n, d) {
      CutEnds(w, a.tail, n + 1, d);
    }
  }

  // ---------------------------------------------------------------- the whole walk

  /** Nothing ends with a directory in which fts_build gives up. */
  predicate Continues(w: World, a: List) {
    a.Cons? ==> (GivesUp(w, a.head) ==> a.tail.Cons?) && Continues(w, a.tail)
  }

  predicate GivesUp(w: World, e: Event) {
    e.info == D && e.target.Directory? && w.Opens(e.target.id, e.path) && Spoiled(w, e.target.id, e.level)
  }

  lemma {:induction false} ContinuesAppend(w: World, a: List, b: List)
    requires Continues(w, a) && Continues(w, b)
    ensures Continues(w, Append(a, b))
  {
    if a.Cons? {
      ContinuesAppend(w, a.tail, b);
    }
  }

  lemma {:induction false} WalkContinues(w: World, e: Dirent, p: Place, n: nat)
    ensures Continues(w, Walk(w, e, p, n))
    decreases Left(w, p.ids), 0, 1
  {
    if InfoOf(e, p.ids) == D {
      BodyContinues(w, e, p, n + 1);
      DirectoryFirst(e, p.ids);
    } else {
      assert Continues(w, Nil);
    }
  }

  lemma {:induction false} BodyContinues(w: World, e: Dirent, p: Place, n: nat)
    requires n > 0 && InfoOf(e, p.ids) == D
    ensures Continues(w, Body(w, e, p, n))
    ensures e.target.Directory? && w.Opens(e.target.id, PathOf(e, p)) && Spoiled(w, e.target.id, p.Level()) ==>
            Body(w, e, p, n).Cons?
    decreases Left(w, p.ids), 0, 0
  {
    DirectoryFirst(e, p.ids);
    var id := e.target.id;
    assert Continues(w, Nil) && Continues(w, One(Shows(DP, e, p))) && Continues(w, One(Shows(DNR, e, p)));
    if !Lost(w, id, PathOf(e, p), p.Level(), w.list(n - 1)) && !Refused(w, id, PathOf(e, p), w.list(n - 1)) {
      LeftShrinks(w, p.ids, id);
      WalkAllContinues(w, Kids(w, id), 0, Inner(e, p), n);
      ContinuesAppend(w, WalkAll(w, Kids(w, id), 0, Inner(e, p), n), One(Shows(DP, e, p)));
    }
  }

  lemma {:induction false} WalkAllContinues(w: World, es: seq<Dirent>, i: nat, p: Place, n: nat)
    requires i <= |es|
    ensures Continues(w, WalkAll(w, es, i, p, n))
    decreases Left(w, p.ids), |es| - i, 2
  {
    if i < |es| {
      var first := Walk(w, es[i], p, n);
      WalkContinues(w, es[i], p, n);
      WalkAllContinues(w, es, i + 1, p, n + Length(first));
      ContinuesAppend(w, first, WalkAll(w, es, i + 1, p, n + Length(first)));
    } else {
      assert Continues(w, Nil);
    }
  }

  lemma {:induction false} CutShort(w: World, a: List, n: nat, dev: bv64)
    requires Continues(w, a) && Halting(w, a, n, dev)
    ensures Cut(w, a, n, dev) != a
  {
    var d := DevAfter(a.head, dev);
    if !Halts(w, a.head, n, d) {
      CutShort(w, a.tail, n + 1, d);
    }
  }

  lemma {:induction false} SameSequence(a: List, b: List)
    requires Sequence(a) == Sequence(b)
    ensures a == b
  {
    if a.Cons? && b.Cons? {
      assert Sequence(a)[0] == a.head && Sequence(b)[0] == b.head;
      assert Sequence(a)[1..] == Sequence(a.tail) && Sequence(b)[1..] == Sequence(b.tail);
      SameSequence(a.tail, b.tail);
    }
  }

  /** The whole recursive walk is returned exactly when no directory that fts_build opens keeps an entry that could not
      be examined, with no link that leads nowhere after it (or any entry, at level SHRT_MAX). */
  lemma WholeWalk(w: World, roots: seq<Dirent>)
    ensures var walk := WalkAll(w, roots, 0, TOP, 0);
            Sequence(Cut(w, walk, 0, 0)) == Sequence(walk) <==> !Halting(w, walk, 0, 0)
  {
    var walk := WalkAll(w, roots, 0, TOP, 0);
    WalkAllContinues(w, roots, 0, TOP, 0);
    if Halting(w, walk, 0, 0) {
      CutShort(w, walk, 0, 0);
      if Sequence(Cut(w, walk, 0, 0)) == Sequence(walk) {
        SameSequence(Cut(w, walk, 0, 0), walk);
      }
    } else {
      NotCut(w, walk, 0, 0);
    }
  }
}
