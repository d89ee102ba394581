/** The path buffer over a whole walk of src/fts.c: how large it grows, and whether fts_build writes past its end, as a
    function of what the walk returns. */
module FtsGauge {
  import opened FtsPath
  import opened FtsSpec
  import opened FtsStop

  /** The size of the buffer, and whether a terminator has been put past its end. */
  datatype Gauge = Gauge(size: nat, overrun: bool)

  /** The size once fts_build has read the first n entries, for a directory whose path and slash take len characters. */
  function SizeAfter(w: World, entries: seq<Dirent>, n: nat, len: nat, size: nat): nat
    requires n <= |entries|
  {
    if n == 0 then size
    else
      var s := SizeAfter(w, entries, n - 1, len, size);
      if Leaves(w, entries[n - 1]) then s else NextSize(s, len + |entries[n - 1].name|)
  }

  /** fts_build of a directory that can be opened: the terminator after the slash comes first. */
  function Built(w: World, id: Id, path: string, g: Gauge): Gauge
    requires id in w.dirs
  {
    var len, entries := |Trim(path)| + 1, w.dirs[id];
    Gauge(SizeAfter(w, entries, |entries|, len, g.size), g.overrun || len == g.size)
  }

  /** The buffer after a walk that returns these events, the first as the n-th. */
  function Measured(w: World, a: List, n: nat, dev: bv64, g: Gauge): Gauge {
    match a
    case Nil => g
    case Cons(e, t) =>
      var d := DevAfter(e, dev);
      Measured(w, t, n + 1, d, if Builds(w, e, n, d) then Built(w, e.target.id, e.path, g) else g)
  }

  lemma MeasuredNothing(w: World, n: nat, dev: bv64, g: Gauge)
    ensures Measured(w, Nil, n, dev, g) == g
  {
  }

  lemma MeasuredStep(w: World, e: Event, t: List, n: nat, dev: bv64, g: Gauge)
    ensures var d := DevAfter(e, dev);
            Measured(w, Cons(e, t), n, dev, g)
            == Measured(w, t, n + 1, d, if Builds(w, e, n, d) then Built(w, e.target.id, e.path, g) else g)
  {
  }

  lemma {:induction false} DoubledCovers(x: nat, p: nat)
    requires p > 0
    ensures x <= Doubled(x, p)
    decreases x - p
  {
    if p < x {
      DoubledCovers(x, 2 * p);
    }
  }

  /** Afterwards the buffer holds every path read; reading the directory again leaves its size alone. */
  lemma {:induction false} SizeCovers(w: World, entries: seq<Dirent>, n: nat, len: nat, size: nat)
    requires n <= |entries|
    ensures var s := SizeAfter(w, entries, n, len, size);
            size <= s && forall j :: 0 <= j < n && !Leaves(w, entries[j]) ==> len + |entries[j].name| < s
  {
    if n > 0 {
      SizeCovers(w, entries, n - 1, len, size);
      var s, need := SizeAfter(w, entries, n - 1, len, size), len + |entries[n - 1].name|;
      if need >= s {
        DoubledCovers(need + 1 + PAD, 1);
      }
    }
  }

  lemma {:induction false} SizeStays(w: World, entries: seq<Dirent>, n: nat, len: nat, size: nat)
    requires n <= |entries| && forall j :: 0 <= j < n && !Leaves(w, entries[j]) ==> len + |entries[j].name| < size
    ensures SizeAfter(w, entries, n, len, size) == size
  {
    if n > 0 {
      SizeStays(w, entries, n - 1, len, size);
    }
  }

  /** If the buffer has not grown, or no longer ends with the slash. */
  lemma {:induction false} GrownPast(w: World, entries: seq<Dirent>, n: nat, len: nat, size: nat)
    requires n <= |entries|
    ensures var s := SizeAfter(w, entries, n, len, size); s == size || len < s
  {
    if n > 0 {
      GrownPast(w, entries, n - 1, len, size);
      var s, need := SizeAfter(w, entries, n - 1, len, size), len + |entries[n - 1].name|;
      if need >= s {
        DoubledCovers(need + 1 + PAD, 1);
      }
    }
  }

  /** Building a directory a second time changes nothing. */
  lemma BuiltTwice(w: World, id: Id, path: string, g: Gauge)
    requires id in w.dirs
    ensures Built(w, id, path, Built(w, id, path, g)) == Built(w, id, path, g)
  {
    var len, entries := |Trim(path)| + 1, w.dirs[id];
    SizeCovers(w, entries, |entries|, len, g.size);
    SizeStays(w, entries, |entries|, len, SizeAfter(w, entries, |entries|, len, g.size));
    GrownPast(w, entries, |entries|, len, g.size);
  }

  /** fts_maxarglen, without the terminator. */
  function Longest(roots: seq<Dirent>): nat {
    if roots == [] then 0
    else
      var m, n := Longest(roots[..|roots| - 1]), |roots[|roots| - 1].name|;
      if n > m then n else m
  }

  lemma {:induction false} LongestBounds(roots: seq<Dirent>)
    ensures forall e :: e in roots ==> |e.name| <= Longest(roots)
    ensures roots == [] || exists e :: e in roots && |e.name| == Longest(roots)
  {
    if roots != [] {
      var front, last := roots[..|roots| - 1], roots[|roots| - 1];
      LongestBounds(front);
      assert roots == front + [last];
      if front != [] && |last.name| <= Longest(front) {
        var e :| e in front && |e.name| == Longest(front);
        assert e in roots;
      } else {
        assert last in roots;
      }
    }
  }

  /** The whole run. */
  function Whole(w: World, roots: seq<Dirent>): Gauge {
    Measured(w, Cut(w, WalkAll(w, roots, 0, TOP, 0), 0, 0), 0, 0, Gauge(FirstSize(Longest(roots)), false))
  }

  // ---------------------------------------------------------------- a walk that writes past the end

  const OUTER := Id(0, 1)
  const INNER := Id(0, 2)

  function Times(c: char, n: nat): (s: string)
    ensures |s| == n && forall i :: 0 <= i < n ==> s[i] == c
  {
    if n == 0 then "" else Times(c, n - 1) + [c]
  }

  function DeepChild(): Dirent {
    Dirent(Times('c', 255), Directory(INNER))
  }

  /** A root with a path of 7935 characters, in it a directory with a name of 255, and paths as long as these open. */
  function DeepWorld(): World {
    World(map[OUTER := [DeepChild()], INNER := []], 9000, false, false, items => [], n => false, n => 0)
  }

  function DeepRoot(): Dirent {
    Dirent(Times('r', 7935), Directory(OUTER))
  }

  lemma {:induction false} OverrunStays(w: World, a: List, n: nat, dev: bv64, g: Gauge)
    requires g.overrun
    ensures Measured(w, a, n, dev, g).overrun
  {
    if a.Cons? {
      var d := DevAfter(a.head, dev);
      var h := if Builds(w, a.head, n, d) then Built(w, a.head.target.id, a.head.path, g) else g;
      OverrunStays(w, a.tail, n + 1, d, h);
    }
  }

  lemma FirstOfAll(w: World, es: seq<Dirent>, i: nat, p: Place, n: nat) returns (rest: List)
    requires i < |es|
    ensures var info := InfoOf(es[i], p.ids);
            WalkAll(w, es, i, p, n)
            == Cons(Shows(info, es[i], p), Append(if info == D then Body(w, es[i], p, n + 1) else Nil, rest))
  {
    var first := Walk(w, es[i], p, n);
    rest := WalkAll(w, es, i + 1, p, n + Length(first));
    assert WalkAll(w, es, i, p, n) == Append(first, rest);
    assert Append(first, rest) == Cons(first.head, Append(first.tail, rest));
  }

  lemma BodyEntered(w: World, e: Dirent, p: Place, n: nat)
    requires n > 0 && InfoOf(e, p.ids) == D && e.target.Directory? && w.Opens(e.target.id, PathOf(e, p))
    requires w.list(n - 1) == 0 && !w.skip(n - 1) && !w.xdev
    ensures Body(w, e, p, n) == Append(WalkAll(w, Kids(w, e.target.id), 0, Inner(e, p), n), One(Shows(DP, e, p)))
  {
  }

  lemma DeepFacts()
    ensures var w, root, child, q := DeepWorld(), DeepRoot(), DeepChild(), Inner(DeepRoot(), TOP);
            InfoOf(root, []) == D && InfoOf(child, q.ids) == D && w.Opens(OUTER, PathOf(root, TOP))
              && Kids(w, OUTER) == [child]
  {
    hide Times;
    var w, child, q := DeepWorld(), DeepChild(), Inner(DeepRoot(), TOP);
    assert child.name[0] == 'c' && !IsDot(child.name);
    assert q.ids == [OUTER];
    assert All(w, [child]) == [child] by {
      assert Seen(w, [child], 0) == [];
    }
  }

  /** The walk begins with the root and the directory in it. */
  lemma DeepWalk() returns (rest: List)
    ensures var first, second := Shows(D, DeepRoot(), TOP), Shows(D, DeepChild(), Inner(DeepRoot(), TOP));
            WalkAll(DeepWorld(), [DeepRoot()], 0, TOP, 0) == Cons(first, Cons(second, rest))
  {
    hide WalkAll, Walk, Body, Kids, InfoOf, Shows;
    var w, root, child := DeepWorld(), DeepRoot(), DeepChild();
    var q := Inner(root, TOP);
    DeepFacts();
    var after := FirstOfAll(w, [root], 0, TOP, 0);
    BodyEntered(w, root, TOP, 1);
    var within := FirstOfAll(w, [child], 0, q, 1);
    var below := WalkAll(w, [child], 0, q, 1);
    var body := Append(below, One(Shows(DP, root, TOP)));
    assert body == Cons(below.head, Append(below.tail, One(Shows(DP, root, TOP))));
    rest := Append(body.tail, after);
  }

  lemma DeepSizes()
    ensures FirstSize(7935) == 8192
    ensures |Trim(DeepRoot().name)| == 7935 && |Trim(Join(DeepRoot().name, DeepChild().name))| == 8191
  {
    assert Doubled(8192, 1) == 8192;
    var r, c := DeepRoot().name, DeepChild().name;
    assert r[7934] == 'r' && c[254] == 'c';
    assert Join(r, c) == r + "/" + c && Join(r, c)[8190] == c[254];
  }

  lemma DeepFits()
    ensures Fits(DeepWorld()) && Named(DeepRoot()) && |DeepRoot().name| < 0x1000_0000
  {
  }

  /** ...and fts_build of the latter writes past the end of the buffer. */
  lemma DeepBuilt()
    ensures var w, g := DeepWorld(), Gauge(8192, false);
            && Built(w, OUTER, PathOf(DeepRoot(), TOP), g) == g
            && Built(w, INNER, PathOf(DeepChild(), Inner(DeepRoot(), TOP)), g).overrun
  {
    hide Trim, Doubled, Times;
    var w, child := DeepWorld(), DeepChild();
    DeepSizes();
    assert SizeAfter(w, [child], 1, 7936, 8192) == 8192 by {
      assert SizeAfter(w, [child], 0, 7936, 8192) == 8192;
    }
  }

  lemma DeepUnspoiled()
    ensures !Spoiled(DeepWorld(), OUTER, 0) && !Spoiled(DeepWorld(), INNER, 1)
  {
    var w, child := DeepWorld(), DeepChild();
    assert !ErrnoAfter(w, [child], 0, false) && !ErrnoAfter(w, [child], 1, false);
  }

  lemma DeepOverruns()
    ensures Whole(DeepWorld(), [DeepRoot()]).overrun
  {
    hide WalkAll, Measured, Cut, Spoiled, Doubled, Trim, Built, Times, InfoOf;
    var w, root, child := DeepWorld(), DeepRoot(), DeepChild();
    var first, second := Shows(D, root, TOP), Shows(D, child, Inner(root, TOP));
    var rest := DeepWalk();
    DeepSizes();
    DeepBuilt();
    assert Longest([root]) == 7935 by {
      assert Longest([root][..0]) == 0;
    }
    var g := Gauge(8192, false);
    CutStep(w, first, Cons(second, rest), 0, 0);
    CutStep(w, second, rest, 1, 0);
    DeepUnspoiled();
    var cut := Cut(w, rest, 2, 0);
    MeasuredStep(w, first, Cons(second, cut), 0, 0, g);
    MeasuredStep(w, second, cut, 1, 0, g);
    OverrunStays(w, cut, 2, 0, Built(w, INNER, second.path, g));
  }
}
