/** What the recursive walk of FtsSpec promises: cycles are reported as such, and directories are closed in order. */
module FtsTheorems {
  import opened FtsSpec
  import opened FtsStop

  /** The events are those of a proper walk inside the open directories: every entry comes at its level; a directory is
      DC exactly if its identity is that of an open one, dot entries and levels beyond SHRT_MAX aside, and D otherwise;
      everything else is reported as what it is; and every D is closed by one DP or DNR of the same directory, the
      innermost first. */
  predicate Proper(a: List, open: seq<Id>) {
    match a
    case Nil => open == []
    case Cons(e, t) =>
      match e.info
      case DP => Closes(e, open) && Proper(t, open[..|open| - 1])
      case DNR => Closes(e, open) && Proper(t, open[..|open| - 1])
      case D => First(e, open) && e.target.Directory? && Proper(t, open + [e.target.id])
      case _ => First(e, open) && Proper(t, open)
  }

  /** The event is the first, or only, one of an entry of the innermost open directory. */
  predicate First(e: Event, open: seq<Id>) {
    && e.level == |open|
    && (e.info == ERR <==> e.level >= SHRT_MAX)
    && (e.level < SHRT_MAX ==>
          match e.target
          case Directory(id) =>
            && (e.info == DOT <==> e.level > 0 && IsDot(e.name))
            && (e.info == DC <==> e.info != DOT && id in open)
            && (e.info == D <==> e.info != DOT && id !in open)
          case File => e.info == F
          case Link => e.info == SL
          case DeadLink => e.info == SLNONE
          case NoStat => e.info == NS
          case Special => e.info == Default)
  }

  predicate Closes(e: Event, open: seq<Id>) {
    open != [] && e.level == |open| - 1 && e.target == Directory(open[|open| - 1])
  }

  /** fts_children has been called in vain, after the n-th node or later. */
  predicate Vain(w: World, a: List, n: nat) {
    match a
    case Nil => false
    case Cons(e, t) =>
      || (e.info == D && e.target.Directory? && Lost(w, e.target.id, e.path, e.level, w.list(n)))
      || Vain(w, t, n + 1)
  }

  lemma VainNothing(w: World, n: nat)
    ensures !Vain(w, Nil, n)
  {
  }

  lemma {:induction false} VainAppend(w: World, a: List, b: List, n: nat)
    ensures Vain(w, Append(a, b), n) <==> Vain(w, a, n) || Vain(w, b, n + Length(a))
  {
    if a.Cons? {
      VainAppend(w, a.tail, b, n + 1);
    }
  }

  /** What can follow an entry at level l: nothing, another entry there, or the directory above once more. */
  predicate Calm(a: List, l: nat) {
    a.Nil?
    || (a.head.level == l && a.head.info != DP && a.head.info != DNR)
    || (a.head.level == l - 1 && a.head.info == DP)
  }

  lemma NotWithin(a: List, open: seq<Id>)
    requires open != [] && Calm(a, |open| - 1)
    ensures !Proper(a, open)
  {
  }

  lemma {:induction false} WalkProper(w: World, e: Dirent, p: Place, n: nat, rest: List)
    requires Calm(rest, |p.ids|)
    ensures Proper(Append(Walk(w, e, p, n), rest), p.ids) <==> !Vain(w, Walk(w, e, p, n), n) && Proper(rest, p.ids)
    decreases Left(w, p.ids), 0, 1
  {
    var info := InfoOf(e, p.ids);
    var first := Shows(info, e, p);
    if info == D {
      var body := Body(w, e, p, n + 1);
      assert Append(Cons(first, body), rest) == Cons(first, Append(body, rest));
      DirectoryFirst(e, p.ids);
      BodyProper(w, e, p, n + 1, rest);
    } else {
      assert Append(Cons(first, Nil), rest) == Cons(first, Append(Nil, rest));
      assert !Vain(w, Nil, n + 1);
    }
  }

  lemma {:induction false} BodyProper(w: World, e: Dirent, p: Place, n: nat, rest: List)
    requires Calm(rest, |p.ids|) && n > 0 && InfoOf(e, p.ids) == D && e.target.Directory?
    ensures Proper(Append(Body(w, e, p, n), rest), p.ids + [e.target.id]) <==>
            !Lost(w, e.target.id, PathOf(e, p), p.Level(), w.list(n - 1)) && !Vain(w, Body(w, e, p, n), n)
            && Proper(rest, p.ids)
    decreases Left(w, p.ids), 0, 0
  {
    var id := e.target.id;
    DirectoryFirst(e, p.ids);
    if Lost(w, id, PathOf(e, p), p.Level(), w.list(n - 1)) {
      NotWithin(rest, p.ids + [id]);
    } else if w.skip(n - 1) || (w.xdev && id.dev != DevOf(e, p)) {
      ClosesHere(w, DP, e, p, n, rest);
    } else if Refused(w, id, PathOf(e, p), w.list(n - 1)) {
      ClosesHere(w, DNR, e, p, n, rest);
    } else {
      LeftShrinks(w, p.ids, id);
      WalkAllProper(w, Kids(w, id), 0, Inner(e, p), n, Cons(Shows(DP, e, p), rest));
      EnteredProper(w, e, p, n, rest);
    }
  }

  /** A directory that is entered: its entries, and the directory again. */
  lemma EnteredProper(w: World, e: Dirent, p: Place, n: nat, rest: List)
    requires n > 0 && InfoOf(e, p.ids) == D && e.target.Directory? && e.target.id !in p.ids
    requires !Lost(w, e.target.id, PathOf(e, p), p.Level(), w.list(n - 1))
    requires !Refused(w, e.target.id, PathOf(e, p), w.list(n - 1))
    requires !w.skip(n - 1) && !(w.xdev && e.target.id.dev != DevOf(e, p))
    requires var all := WalkAll(w, Kids(w, e.target.id), 0, Inner(e, p), n); var ids := p.ids + [e.target.id];
             Proper(Append(all, Cons(Shows(DP, e, p), rest)), ids)
             <==> !Vain(w, all, n) && Proper(Cons(Shows(DP, e, p), rest), ids)
    ensures Proper(Append(Body(w, e, p, n), rest), p.ids + [e.target.id]) <==>
            !Vain(w, Body(w, e, p, n), n) && Proper(rest, p.ids)
  {
    hide First, Lost, Proper, Vain, WalkAll, Kids, InfoOf, PathOf, NameOf, Append;
    var all := WalkAll(w, Kids(w, e.target.id), 0, Inner(e, p), n);
    ClosesHere(w, DP, e, p, n + Length(all), rest);
    AppendAppend(all, One(Shows(DP, e, p)), rest);
    VainAppend(w, all, One(Shows(DP, e, p)), n);
  }

  lemma ClosesHere(w: World, info: Info, e: Dirent, p: Place, n: nat, rest: List)
    requires e.target.Directory? && (info == DP || info == DNR)
    ensures Append(One(Shows(info, e, p)), rest) == Cons(Shows(info, e, p), rest)
    ensures !Vain(w, One(Shows(info, e, p)), n)
    ensures Proper(Cons(Shows(info, e, p), rest), p.ids + [e.target.id]) <==> Proper(rest, p.ids)
  {
    hide First, Lost, InfoOf, NameOf, PathOf;
    var open := p.ids + [e.target.id];
    assert open[..|open| - 1] == p.ids;
    assert Append(Nil, rest) == rest && !Vain(w, Nil, n + 1);
  }

  lemma {:induction false} WalkAllProper(w: World, es: seq<Dirent>, i: nat, p: Place, n: nat, rest: List)
    requires Calm(rest, |p.ids|) && i <= |es|
    ensures Proper(Append(WalkAll(w, es, i, p, n), rest), p.ids)
       <==> !Vain(w, WalkAll(w, es, i, p, n), n) && Proper(rest, p.ids)
    decreases Left(w, p.ids), |es| - i, 2
  {
    hide Proper, Vain, Walk, InfoOf, Calm;
    VainNothing(w, n);
    if i < |es| {
      var first := Walk(w, es[i], p, n);
      var more := WalkAll(w, es, i + 1, p, n + Length(first));
      AppendAppend(first, more, rest);
      VainAppend(w, first, more, n);
      WalkAllProper(w, es, i + 1, p, n + Length(first), rest);
      CalmMore(w, es, i + 1, p, n + Length(first), rest);
      WalkProper(w, es[i], p, n, Append(more, rest));
    }
  }

  lemma CalmMore(w: World, es: seq<Dirent>, i: nat, p: Place, n: nat, rest: List)
    requires Calm(rest, |p.ids|) && i <= |es|
    ensures Calm(Append(WalkAll(w, es, i, p, n), rest), |p.ids|)
  {
    if i < |es| {
      var first := Walk(w, es[i], p, n);
      assert first.head == Shows(InfoOf(es[i], p.ids), es[i], p);
      assert Append(first, WalkAll(w, es, i + 1, p, n + Length(first))).head == first.head;
    }
  }

  /** The walk of the given roots is proper, cycles included, exactly when fts_children was not called in vain. */
  lemma WalkIsProper(w: World, roots: seq<Dirent>)
    ensures var walk := WalkAll(w, roots, 0, Place([], 0, ""), 0); Proper(walk, []) <==> !Vain(w, walk, 0)
  {
    var walk := WalkAll(w, roots, 0, Place([], 0, ""), 0);
    WalkAllProper(w, roots, 0, Place([], 0, ""), 0, Nil);
    AppendNil(walk);
  }

  /** What fts_read returns: the walk, cut off where fts_build gives up.  It is proper exactly when fts_children was not
      called in vain and fts_build did not give up. */
  lemma RunIsProper(w: World, roots: seq<Dirent>)
    ensures var walk := WalkAll(w, roots, 0, TOP, 0);
            Proper(Cut(w, walk, 0, 0), []) <==> !Vain(w, walk, 0) && !Halting(w, walk, 0, 0)
  {
    var walk := WalkAll(w, roots, 0, TOP, 0);
    WalkIsProper(w, roots);
    if Halting(w, walk, 0, 0) {
      CutEnds(w, walk, 0, 0);
      EndsOpen(Cut(w, walk, 0, 0), []);
    } else {
      NotCut(w, walk, 0, 0);
    }
  }

  /** What ends with a directory opened does not close it. */
  lemma {:induction false} EndsOpen(a: List, open: seq<Id>)
    requires a.Cons? && LastOf(a).info == D
    ensures !Proper(a, open)
  {
    if a.tail.Cons? {
      var e := a.head;
      if First(e, open) && e.info == D && e.target.Directory? {
        EndsOpen(a.tail, open + [e.target.id]);
      } else if Closes(e, open) && (e.info == DP || e.info == DNR) {
        EndsOpen(a.tail, open[..|open| - 1]);
      } else {
        EndsOpen(a.tail, open);
      }
    } else if a.head.target.Directory? {
      assert open + [a.head.target.id] != [];
    }
  }

  // ---------------------------------------------------------------- fts_children once more

  /** The worlds differ only in how often fts_children was called before the n-th node. */
  ghost predicate Agree(w: World, v: World, n: nat) {
    v == w.(list := v.list) && forall k: nat :: n <= k ==> v.list(k) == w.list(k)
  }

  lemma {:induction false} SameWalk(w: World, v: World, e: Dirent, p: Place, n: nat)
    requires Agree(w, v, n)
    ensures Walk(v, e, p, n) == Walk(w, e, p, n)
    decreases Left(w, p.ids), 0, 1
  {
    if InfoOf(e, p.ids) == D {
      SameBody(w, v, e, p, n + 1);
    }
  }

  lemma {:induction false} SameBody(w: World, v: World, e: Dirent, p: Place, n: nat)
    requires n > 0 && InfoOf(e, p.ids) == D && Agree(w, v, n - 1)
    ensures Body(v, e, p, n) == Body(w, e, p, n)
    decreases Left(w, p.ids), 0, 0
  {
    hide Lost, Refused, Walk, WalkAll, Kids, InfoOf, PathOf, DevOf, Shows, Append, Left;
    DirectoryFirst(e, p.ids);
    var id := e.target.id;
    SameAnswers(w, v, id, PathOf(e, p), p.Level(), w.list(n - 1));
    if !Lost(w, id, PathOf(e, p), p.Level(), w.list(n - 1)) && !Refused(w, id, PathOf(e, p), w.list(n - 1)) {
      LeftShrinks(w, p.ids, id);
      SameWalkAll(w, v, Kids(w, id), 0, Inner(e, p), n);
    }
  }

  lemma {:induction false} SameWalkAll(w: World, v: World, es: seq<Dirent>, i: nat, p: Place, n: nat)
    requires i <= |es| && Agree(w, v, n)
    ensures WalkAll(v, es, i, p, n) == WalkAll(w, es, i, p, n)
    decreases Left(w, p.ids), |es| - i, 2
  {
    if i < |es| {
      SameWalk(w, v, es[i], p, n);
      SameWalkAll(w, v, es, i + 1, p, n + Length(Walk(w, es[i], p, n)));
    }
  }

  lemma {:induction false} SameEntries(w: World, v: World, entries: seq<Dirent>, n: nat, deep: bool)
    requires n <= |entries| && v == w.(list := v.list)
    ensures Seen(v, entries, n) == Seen(w, entries, n)
    ensures ErrnoAfter(v, entries, n, deep) == ErrnoAfter(w, entries, n, deep)
  {
    if n > 0 {
      SameEntries(w, v, entries, n - 1, deep);
    }
  }

  /** What the file system answers does not depend on the caller. */
  lemma SameAnswers(w: World, v: World, id: Id, path: string, level: int, calls: nat)
    requires v == w.(list := v.list)
    ensures Lost(v, id, path, level, calls) == Lost(w, id, path, level, calls)
    ensures Refused(v, id, path, calls) == Refused(w, id, path, calls)
    ensures !Refused(w, id, path, calls) ==> id in w.dirs
    ensures id in w.dirs ==> Kids(v, id) == Kids(w, id) && Again(v, id, path) == Again(w, id, path)
  {
    if id in w.dirs {
      SameEntries(w, v, w.dirs[id], |w.dirs[id]|, level + 1 >= SHRT_MAX);
    }
  }

  /** Where fts_children has read a directory, further calls change nothing exactly if the text in the path buffer opens
      the directory again; otherwise the directory is not returned any more, and never closed. */
  lemma SecondCall(w: World, v: World, e: Dirent, p: Place, n: nat)
    requires n > 0 && InfoOf(e, p.ids) == D && e.target.Directory? && w.Opens(e.target.id, PathOf(e, p))
    requires !Spoiled(w, e.target.id, p.Level()) && w.list(n - 1) == 1
    requires Agree(w, v, n) && v.list(n - 1) > 1
    ensures Body(v, e, p, n) == Body(w, e, p, n) <==> Again(w, e.target.id, PathOf(e, p))
    ensures Body(w, e, p, n) != Nil && (Body(v, e, p, n) == Body(w, e, p, n) || Body(v, e, p, n) == Nil)
  {
    DirectoryFirst(e, p.ids);
    var id := e.target.id;
    SameAnswers(w, v, id, PathOf(e, p), p.Level(), 1);
    SameAnswers(w, v, id, PathOf(e, p), p.Level(), v.list(n - 1));
    LeftShrinks(w, p.ids, id);
    SameWalkAll(w, v, Kids(w, id), 0, Inner(e, p), n);
  }

  // ---------------------------------------------------------------- three walks that end with a directory open

  const OPENED := Event(D, 0, "d", "d", Directory(Id(0, 1)))

  function Root(): Dirent {
    Dirent("d", Directory(Id(0, 1)))
  }

  /** The directory d holds x, and fts_children is called for it so many times. */
  function Holding(x: Target, calls: nat): World {
    World(map[Id(0, 1) := [Dirent("x", x)]], 100, false, false, items => [], n => false, n => calls)
  }

  /** The directory d cannot be opened, and fts_children is called for it. */
  function Closed(): World {
    World(map[], 100, false, false, items => [], n => false, n => 1)
  }

  lemma RootWalk(w: World)
    ensures WalkAll(w, [Root()], 0, TOP, 0) == Cons(OPENED, Body(w, Root(), TOP, 1))
  {
    var first := Walk(w, Root(), TOP, 0);
    assert LeafOf("d") == "d" && first == Cons(OPENED, Body(w, Root(), TOP, 1));
    AppendNil(first);
    assert WalkAll(w, [Root()], 1, TOP, Length(first)) == Nil;
  }

  /** The entry cannot be examined: fts_build gives up, and nothing follows d. */
  lemma GivenUp()
    ensures var w := Holding(NoStat, 0); var walk := WalkAll(w, [Root()], 0, TOP, 0);
            Cut(w, walk, 0, 0) == One(OPENED) && walk != One(OPENED) && !Proper(One(OPENED), [])
  {
    var w := Holding(NoStat, 0);
    var entries := [Dirent("x", NoStat)];
    assert !ErrnoAfter(w, entries, 0, false) && ErrnoAfter(w, entries, 1, false);
    RootWalk(w);
    CutStep(w, OPENED, Body(w, Root(), TOP, 1), 0, 0);
    EndsOpen(One(OPENED), []);
    WalkAllContinues(w, [Root()], 0, TOP, 0);
    CutShort(w, WalkAll(w, [Root()], 0, TOP, 0), 0, 0);
  }

  /** fts_children is called twice, and the last entry is a file. */
  lemma ListedTwice()
    ensures var w := Holding(File, 2); var walk := WalkAll(w, [Root()], 0, TOP, 0);
            walk == Cut(w, walk, 0, 0) == One(OPENED) && !Proper(walk, [])
  {
    var w, id := Holding(File, 2), Id(0, 1);
    var entries := [Dirent("x", File)];
    assert !ErrnoAfter(w, entries, 0, false) && !ErrnoAfter(w, entries, 1, false);
    assert Seen(w, entries, 0) == [] && All(w, entries) == entries;
    AgainMeans(w, id, "d");
    assert PathOf(Root(), TOP) == "d" && w.Opens(id, "d") && Lost(w, id, "d", 0, 2);
    RootWalk(w);
    CutStep(w, OPENED, Nil, 0, 0);
    EndsOpen(One(OPENED), []);
  }

  /** fts_children is called for a directory that cannot be opened. */
  lemma NeverClosed()
    ensures var w := Closed(); var walk := WalkAll(w, [Root()], 0, TOP, 0);
            walk == Cut(w, walk, 0, 0) == One(OPENED) && !Proper(walk, [])
  {
    RootWalk(Closed());
    CutStep(Closed(), OPENED, Nil, 0, 0);
    EndsOpen(One(OPENED), []);
  }
}
