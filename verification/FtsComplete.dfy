/** What the recursive walk of FtsSpec returns, event by event: of a directory that is entered every entry once, but for
    "." and "..", and of any other nothing. */
module FtsComplete {
  import opened Basics
  import opened FtsSpec
  import opened FtsStop
  import opened FtsTheorems
  import FtsPath

  predicate Second(e: Event) {
    e.info == DP || e.info == DNR
  }

  /** The first visits at level l, until the walk goes back above it. */
  function Visits(a: List, l: int): seq<Event> {
    if a.Nil? || a.head.level < l then []
    else (if a.head.level == l && !Second(a.head) then [a.head] else []) + Visits(a.tail, l)
  }

  /** The next event at level l or above it. */
  function Next(a: List, l: int): Maybe<Event> {
    if a.Nil? then Nothing else if a.head.level <= l then Just(a.head) else Next(a.tail, l)
  }

  function Entry(e: Event): Dirent {
    Dirent(e.name, e.target)
  }

  function Entries(visits: seq<Event>): seq<Dirent> {
    seq(|visits|, i requires 0 <= i < |visits| => Entry(visits[i]))
  }

  /** The visits are those of the entries of the directory returned as e: each once, "." and ".." only under
      FTS_SEEDOT, with the path of the directory, a slash and its name; in the order qsort has given them. */
  ghost predicate Listing(w: World, e: Event, visits: seq<Event>)
    requires e.target.Directory? && e.target.id in w.dirs
  {
    var entries := w.dirs[e.target.id];
    && (forall v :: v in visits ==>
          v.path == e.path + (if e.path != "" && e.path[|e.path| - 1] == '/' then "" else "/") + v.name)
    && (forall d: Dirent :: multiset(Entries(visits))[d] ==
          if w.seedot || (d.name != "." && d.name != "..") then multiset(entries)[d] else 0)
    && (forall compar :: Sorts(w.arrange(All(w, entries)), All(w, entries), compar) ==>
          Ascends(Entries(visits), compar))
  }

  predicate Ascends(es: seq<Dirent>, compar: (Dirent, Dirent) -> int) {
    forall i, j :: 0 <= i < j < |es| ==> compar(es[i], es[j]) <= 0
  }

  /** What follows e, the n-th node: below a directory that is entered, its entries, and then the directory again; below
      anything else, nothing. */
  ghost predicate Follows(w: World, e: Event, tail: List, n: nat, dev: bv64) {
    if e.info != D then Visits(tail, e.level + 1) == []
    else
      e.target.Directory? &&
      var id := e.target.id;
      if Lost(w, id, e.path, e.level, w.list(n)) then
        Visits(tail, e.level + 1) == [] && (tail.Cons? ==> !(tail.head.level == e.level && Second(tail.head)))
      else if w.skip(n) || (w.xdev && id.dev != dev) then
        tail.Cons? && tail.head == e.(info := DP)
      else if Refused(w, id, e.path, w.list(n)) then
        tail.Cons? && tail.head == e.(info := DNR)
      else
        id in w.dirs && Listing(w, e, Visits(tail, e.level + 1)) && Next(tail, e.level) == Just(e.(info := DP))
  }

  /** ...for every event of a, the first being the n-th node; dev is the device of the last root. */
  ghost predicate Tells(w: World, a: List, n: nat, dev: bv64) {
    match a
    case Nil => true
    case Cons(e, t) =>
      var d := if e.level > 0 then dev else if e.target.Directory? then e.target.id.dev else 0;
      Follows(w, e, t, n, d) && Tells(w, t, n + 1, d)
  }

  // ---------------------------------------------------------------- lists of events

  /** Every event is at level l or below it. */
  predicate Deep(a: List, l: int) {
    a.Cons? ==> a.head.level >= l && Deep(a.tail, l)
  }

  lemma {:induction false} DeepAppend(a: List, b: List, l: int)
    requires Deep(a, l) && Deep(b, l)
    ensures Deep(Append(a, b), l)
  {
    if a.Cons? {
      DeepAppend(a.tail, b, l);
    }
  }

  lemma {:induction false} DeepMore(a: List, l: int, m: int)
    requires Deep(a, l) && m <= l
    ensures Deep(a, m)
  {
    if a.Cons? {
      DeepMore(a.tail, l, m);
    }
  }

  lemma {:induction false} VisitsAppend(a: List, b: List, l: int)
    requires Deep(a, l)
    ensures Visits(Append(a, b), l) == Visits(a, l) + Visits(b, l)
  {
    if a.Cons? {
      VisitsAppend(a.tail, b, l);
    }
  }

  lemma {:induction false} NoVisits(a: List, l: int)
    requires Deep(a, l + 1)
    ensures Visits(a, l) == []
  {
    if a.Cons? {
      NoVisits(a.tail, l);
    }
  }

  lemma {:induction false} NextAfter(a: List, b: List, l: int)
    requires Deep(a, l + 1)
    ensures Next(Append(a, b), l) == Next(b, l)
  {
    if a.Cons? {
      NextAfter(a.tail, b, l);
    }
  }

  // ---------------------------------------------------------------- the levels of a walk, and the visits of a list

  lemma {:induction false} WalkDeep(w: World, e: Dirent, p: Place, n: nat)
    ensures Deep(Walk(w, e, p, n), |p.ids|)
    decreases Left(w, p.ids), 0, 1
  {
    if InfoOf(e, p.ids) == D {
      BodyDeep(w, e, p, n + 1);
    } else {
      assert Deep(Nil, |p.ids|);
    }
  }

  lemma {:induction false} BodyDeep(w: World, e: Dirent, p: Place, n: nat)
    requires n > 0 && InfoOf(e, p.ids) == D
    ensures Deep(Body(w, e, p, n), |p.ids|)
    decreases Left(w, p.ids), 0, 0
  {
    DirectoryFirst(e, p.ids);
    var id := e.target.id;
    assert Deep(Nil, |p.ids|) && Deep(One(Shows(DP, e, p)), |p.ids|) && Deep(One(Shows(DNR, e, p)), |p.ids|);
    if !Lost(w, id, PathOf(e, p), p.Level(), w.list(n - 1)) && !Refused(w, id, PathOf(e, p), w.list(n - 1)) {
      LeftShrinks(w, p.ids, id);
      var all := WalkAll(w, Kids(w, id), 0, Inner(e, p), n);
      WalkAllDeep(w, Kids(w, id), 0, Inner(e, p), n);
      DeepMore(all, |p.ids| + 1, |p.ids|);
      DeepAppend(all, One(Shows(DP, e, p)), |p.ids|);
    }
  }

  lemma {:induction false} WalkAllDeep(w: World, es: seq<Dirent>, i: nat, p: Place, n: nat)
    requires i <= |es|
    ensures Deep(WalkAll(w, es, i, p, n), |p.ids|)
    decreases Left(w, p.ids), |es| - i, 2
  {
    if i < |es| {
      var first := Walk(w, es[i], p, n);
      WalkDeep(w, es[i], p, n);
      WalkAllDeep(w, es, i + 1, p, n + Length(first));
      DeepAppend(first, WalkAll(w, es, i + 1, p, n + Length(first)), |p.ids|);
    } else {
      assert Deep(Nil, |p.ids|);
    }
  }

  /** One entry is visited once at its own level. */
  lemma VisitsOfWalk(w: World, e: Dirent, p: Place, n: nat)
    ensures Visits(Walk(w, e, p, n), |p.ids|) == [Shows(InfoOf(e, p.ids), e, p)]
  {
    var l := |p.ids|;
    assert Visits(Nil, l) == [] && Visits(One(Shows(DP, e, p)), l) == [] && Visits(One(Shows(DNR, e, p)), l) == [];
    if InfoOf(e, p.ids) == D {
      DirectoryFirst(e, p.ids);
      var id := e.target.id;
      if !Lost(w, id, PathOf(e, p), p.Level(), w.list(n)) && !Refused(w, id, PathOf(e, p), w.list(n)) {
        var all := WalkAll(w, Kids(w, id), 0, Inner(e, p), n + 1);
        WalkAllDeep(w, Kids(w, id), 0, Inner(e, p), n + 1);
        NoVisits(all, l);
        DeepMore(all, l + 1, l);
        VisitsAppend(all, One(Shows(DP, e, p)), l);
      }
    }
  }

  function Shown(es: seq<Dirent>, i: nat, p: Place): seq<Event>
    requires i <= |es|
    decreases |es| - i
  {
    if i == |es| then [] else [Shows(InfoOf(es[i], p.ids), es[i], p)] + Shown(es, i + 1, p)
  }

  lemma {:induction false} VisitsOfAll(w: World, es: seq<Dirent>, i: nat, p: Place, n: nat)
    requires i <= |es|
    ensures Visits(WalkAll(w, es, i, p, n), |p.ids|) == Shown(es, i, p)
    decreases |es| - i
  {
    hide Walk, InfoOf, Shows;
    if i < |es| {
      var first := Walk(w, es[i], p, n);
      VisitsOfWalk(w, es[i], p, n);
      VisitsOfAll(w, es, i + 1, p, n + Length(first));
      WalkDeep(w, es[i], p, n);
      VisitsAppend(first, WalkAll(w, es, i + 1, p, n + Length(first)), |p.ids|);
    }
  }

  lemma {:induction false} ShownAt(es: seq<Dirent>, i: nat, p: Place)
    requires i <= |es|
    ensures |Shown(es, i, p)| == |es| - i
    ensures forall k :: 0 <= k < |es| - i ==> Shown(es, i, p)[k] == Shows(InfoOf(es[i + k], p.ids), es[i + k], p)
    decreases |es| - i
  {
    if i < |es| {
      ShownAt(es, i + 1, p);
      forall k | 0 <= k < |es| - i
        ensures Shown(es, i, p)[k] == Shows(InfoOf(es[i + k], p.ids), es[i + k], p)
      {
        if k > 0 {
          var j := k - 1;
          assert Shown(es, i + 1, p)[j] == Shows(InfoOf(es[i + 1 + j], p.ids), es[i + 1 + j], p);
        }
      }
    }
  }

  // ---------------------------------------------------------------- the entries of a directory

  predicate Counts(w: World, d: Dirent) {
    w.seedot || (d.name != "." && d.name != "..")
  }

  lemma BagPush(entries: seq<Dirent>, n: nat, d: Dirent)
    requires 0 < n <= |entries|
    ensures multiset(entries[..n])[d] == multiset(entries[..n - 1])[d] + if entries[n - 1] == d then 1 else 0
  {
    assert entries[..n] == entries[..n - 1] + [entries[n - 1]];
  }

  lemma SeenPush(w: World, entries: seq<Dirent>, n: nat, d: Dirent)
    requires n <= |entries|
    ensures multiset(Seen(w, entries, n))[d] ==
            if n == 0 then 0
            else multiset(Seen(w, entries, n - 1))[d]
                 + if !Leaves(w, entries[n - 1]) && entries[n - 1] == d then 1 else 0
  {
  }

  lemma LeavesMeans(w: World, d: Dirent)
    ensures Leaves(w, d) <==> !Counts(w, d)
  {
  }

  lemma {:induction false} SeenBag(w: World, entries: seq<Dirent>, n: nat, d: Dirent)
    requires n <= |entries|
    ensures multiset(Seen(w, entries, n))[d] == if Counts(w, d) then multiset(entries[..n])[d] else 0
  {
    hide Leaves, Counts, Seen;
    SeenPush(w, entries, n, d);
    if n > 0 {
      SeenBag(w, entries, n - 1, d);
      BagPush(entries, n, d);
      LeavesMeans(w, d);
    }
  }

  /** Arranged items are the same items. */
  lemma ArrangedBag(items: seq<Dirent>, order: seq<nat>)
    ensures multiset(Arranged(items, order)) == multiset(items)
  {
    if Permutes(order, |items|) {
      BagOfOrder(items, order, UpTo(|items|));
    }
  }

  /** The items at the places in `order`, all different, are the items at those places. */
  lemma {:induction false} BagOfOrder(items: seq<Dirent>, order: seq<nat>, places: set<nat>)
    requires forall i :: 0 <= i < |order| ==> order[i] < |items|
    requires forall i, j :: 0 <= i < j < |order| ==> order[i] != order[j]
    requires |order| == |items| && places == UpTo(|items|)
    ensures multiset(seq(|order|, i requires 0 <= i < |order| => items[order[i]])) == multiset(items)
  {
    var arranged := seq(|order|, i requires 0 <= i < |order| => items[order[i]]);
    forall d: Dirent ensures multiset(arranged)[d] == multiset(items)[d] {
      CountPlaces(arranged, d);
      CountPlaces(items, d);
      var a, b := PlacesOf(arranged, d), PlacesOf(items, d);
      SameSize(order, a, b, items, arranged, d);
    }
  }

  function PlacesOf(items: seq<Dirent>, d: Dirent): set<nat> {
    set i: nat | i < |items| && items[i] == d
  }

  lemma PlacesPush(front: seq<Dirent>, last: Dirent, d: Dirent)
    ensures |PlacesOf(front + [last], d)| == |PlacesOf(front, d)| + if last == d then 1 else 0
  {
    var items := front + [last];
    if last == d {
      assert PlacesOf(items, d) == PlacesOf(front, d) + {|front|};
    } else {
      assert PlacesOf(items, d) == PlacesOf(front, d);
    }
  }

  lemma {:induction false} CountPlaces(items: seq<Dirent>, d: Dirent)
    ensures multiset(items)[d] == |PlacesOf(items, d)|
  {
    if items != [] {
      var front, last := items[..|items| - 1], items[|items| - 1];
      CountPlaces(front, d);
      assert items == front + [last];
      PlacesPush(front, last, d);
    } else {
      assert PlacesOf(items, d) == {};
    }
  }

  lemma SameSize(order: seq<nat>, a: set<nat>, b: set<nat>, items: seq<Dirent>, arranged: seq<Dirent>, d: Dirent)
    requires Permutes(order, |items|) && |arranged| == |items| && a == PlacesOf(arranged, d) && b == PlacesOf(items, d)
    requires forall i :: 0 <= i < |items| ==> arranged[i] == items[order[i]]
    ensures |a| == |b|
  {
    forall k | k in b ensures exists i :: i in a && order[i] == k {
      var i := Hits(order, |items|, k);
      assert i in a;
    }
    ImageSize(order, a, b);
  }

  lemma {:induction false} ImageSize(order: seq<nat>, a: set<nat>, b: set<nat>)
    requires forall i :: i in a ==> i < |order| && order[i] in b
    requires forall i, j :: 0 <= i < j < |order| ==> order[i] != order[j]
    requires forall k :: k in b ==> exists i :: i in a && order[i] == k
    ensures |a| == |b|
    decreases a
  {
    if a == {} {
      assert b == {};
    } else {
      var i :| i in a;
      ImageSize(order, a - {i}, b - {order[i]});
      assert |a - {i}| == |a| - 1 && |b - {order[i]}| == |b| - 1;
    }
  }

  lemma KidsListed(w: World, e: Dirent, p: Place)
    requires InfoOf(e, p.ids) == D && e.target.Directory? && e.target.id in w.dirs
    ensures Listing(w, Shows(D, e, p), Shown(Kids(w, e.target.id), 0, Inner(e, p)))
  {
    hide InfoOf, PathOf, Shown, Kids, Sorts, Inner;
    InnerPath(e, p);
    ShownEntries(Kids(w, e.target.id), Inner(e, p));
    KidsBag(w, e.target.id);
    forall compar | Sorts(w.arrange(All(w, w.dirs[e.target.id])), All(w, w.dirs[e.target.id]), compar)
      ensures Ascends(Kids(w, e.target.id), compar)
    {
      KidsSorted(w, e.target.id, compar);
    }
  }

  lemma InnerPath(e: Dirent, p: Place)
    requires e.target.Directory?
    ensures Inner(e, p).dir == PathOf(e, p) && |Inner(e, p).ids| == |p.ids| + 1
  {
  }

  lemma ShownEntries(es: seq<Dirent>, q: Place)
    requires |q.ids| > 0
    ensures Entries(Shown(es, 0, q)) == es
    ensures forall v :: v in Shown(es, 0, q) ==>
              v.path == q.dir + (if q.dir != "" && q.dir[|q.dir| - 1] == '/' then "" else "/") + v.name
  {
    var visits := Shown(es, 0, q);
    ShownAt(es, 0, q);
    forall k | 0 <= k < |es|
      ensures Entry(visits[k]) == es[k]
      ensures visits[k].path == q.dir + (if q.dir != "" && q.dir[|q.dir| - 1] == '/' then "" else "/") + visits[k].name
    {
      assert visits[k] == Shows(InfoOf(es[0 + k], q.ids), es[0 + k], q);
      JoinMeans(q.dir, es[k].name);
    }
  }

  lemma JoinMeans(dir: string, name: string)
    ensures FtsPath.Join(dir, name) == dir + (if dir != "" && dir[|dir| - 1] == '/' then "" else "/") + name
  {
    if dir != "" && dir[|dir| - 1] == '/' {
      assert dir == dir[..|dir| - 1] + "/";
    }
  }

  lemma KidsBag(w: World, id: Id)
    requires id in w.dirs
    ensures forall d: Dirent :: multiset(Kids(w, id))[d] == if Counts(w, d) then multiset(w.dirs[id])[d] else 0
  {
    var entries := w.dirs[id];
    ArrangedBag(All(w, entries), w.arrange(All(w, entries)));
    forall d: Dirent ensures multiset(Kids(w, id))[d] == if Counts(w, d) then multiset(entries)[d] else 0 {
      SeenBag(w, entries, |entries|, d);
      assert entries[..|entries|] == entries;
    }
  }

  // ---------------------------------------------------------------- every event of a walk

  /** What comes next is not below level l. */
  predicate Low(a: List, l: int) {
    a.Cons? ==> a.head.level <= l
  }

  lemma LowVisits(a: List, l: int)
    requires Low(a, l)
    ensures Visits(a, l + 1) == []
  {
  }

  lemma {:induction false} TellsWalk(w: World, e: Dirent, p: Place, n: nat, dev: bv64, rest: List)
    requires Calm(rest, |p.ids|) && Low(rest, |p.ids|) && (|p.ids| > 0 ==> dev == p.dev)
    requires Tells(w, rest, n + Length(Walk(w, e, p, n)), DevOf(e, p))
    ensures Tells(w, Append(Walk(w, e, p, n), rest), n, dev)
    decreases Left(w, p.ids), 0, 2
  {
    hide Body, Calm, Low, Visits, PathOf, Lost, Refused;
    var info := InfoOf(e, p.ids);
    var first := Shows(info, e, p);
    if info == D {
      DirectoryFirst(e, p.ids);
      var body := Body(w, e, p, n + 1);
      assert Append(Cons(first, body), rest) == Cons(first, Append(body, rest));
      TellsBody(w, e, p, n + 1, rest);
    } else {
      assert Append(Cons(first, Nil), rest) == Cons(first, Append(Nil, rest)) == Cons(first, rest);
      assert Length(Cons(first, Nil)) == 1 + Length(Nil) == 1;
      LowVisits(rest, |p.ids|);
    }
    assert first.level == |p.ids|;
  }

  lemma {:induction false} TellsBody(w: World, e: Dirent, p: Place, n: nat, rest: List)
    requires n > 0 && InfoOf(e, p.ids) == D && e.target.Directory?
    requires Calm(rest, |p.ids|) && Low(rest, |p.ids|)
    requires Tells(w, rest, n + Length(Body(w, e, p, n)), DevOf(e, p))
    ensures var tail := Append(Body(w, e, p, n), rest);
            Tells(w, tail, n, DevOf(e, p)) && Follows(w, Shows(D, e, p), tail, n - 1, DevOf(e, p))
    decreases Left(w, p.ids), 0, 1
  {
    hide Lost, Refused, Tells, Calm, Kids, InfoOf, PathOf, DevOf, WalkAll, Visits, Next, Listing;
    DirectoryFirst(e, p.ids);
    var id, l := e.target.id, |p.ids|;
    if Lost(w, id, PathOf(e, p), p.Level(), w.list(n - 1)) {
      LowVisits(rest, l);
      CalmHead(rest, l);
    } else if w.skip(n - 1) || (w.xdev && id.dev != DevOf(e, p)) {
      TellsOnce(w, DP, e, p, n, rest);
    } else if Refused(w, id, PathOf(e, p), w.list(n - 1)) {
      TellsOnce(w, DNR, e, p, n, rest);
    } else {
      NotRefused(w, id, PathOf(e, p), w.list(n - 1));
      TellsEntered(w, e, p, n, rest);
    }
  }

  lemma NotRefused(w: World, id: Id, path: string, calls: nat)
    requires !Refused(w, id, path, calls)
    ensures id in w.dirs
  {
  }

  lemma CalmHead(a: List, l: nat)
    requires Calm(a, l)
    ensures a.Cons? ==> !(a.head.level == l && Second(a.head))
  {
  }

  /** The second visit of a directory. */
  lemma TellsOnce(w: World, info: Info, e: Dirent, p: Place, n: nat, rest: List)
    requires e.target.Directory? && (info == DP || info == DNR) && Low(rest, |p.ids|)
    requires Tells(w, rest, n + 1, DevOf(e, p))
    ensures Append(One(Shows(info, e, p)), rest) == Cons(Shows(info, e, p), rest)
    ensures Length(One(Shows(info, e, p))) == 1 && Tells(w, Cons(Shows(info, e, p), rest), n, DevOf(e, p))
  {
    assert Append(Nil, rest) == rest && Length(Nil) == 0;
    LowVisits(rest, |p.ids|);
  }

  lemma {:induction false} TellsEntered(w: World, e: Dirent, p: Place, n: nat, rest: List)
    requires n > 0 && InfoOf(e, p.ids) == D && e.target.Directory? && e.target.id !in p.ids && e.target.id in w.dirs
    requires Calm(rest, |p.ids|) && Low(rest, |p.ids|)
    requires var all := WalkAll(w, Kids(w, e.target.id), 0, Inner(e, p), n);
             Tells(w, rest, n + Length(Append(all, One(Shows(DP, e, p)))), DevOf(e, p))
    ensures var all := WalkAll(w, Kids(w, e.target.id), 0, Inner(e, p), n);
            var tail := Append(Append(all, One(Shows(DP, e, p))), rest);
            && Tells(w, tail, n, DevOf(e, p)) && Listing(w, Shows(D, e, p), Visits(tail, |p.ids| + 1))
            && Next(tail, |p.ids|) == Just(Shows(DP, e, p))
    decreases Left(w, p.ids), 0, 0
  {
    hide Tells, Calm, Kids, InfoOf, PathOf, DevOf, WalkAll, Listing, Visits;
    var id, l := e.target.id, |p.ids|;
    var q := Inner(e, p);
    var all, last := WalkAll(w, Kids(w, id), 0, q, n), Shows(DP, e, p);
    var after := Cons(last, rest);
    AppendLength(all, One(last));
    assert Length(One(last)) == 1 + Length(Nil) && Length(Nil) == 0;
    TellsOnce(w, DP, e, p, n + Length(all), rest);
    AppendAppend(all, One(last), rest);
    LeftShrinks(w, p.ids, id);
    LastCalm(DP, e, p, rest);
    TellsWalkAll(w, Kids(w, id), 0, q, n, q.dev, after);
    WalkAllDeep(w, Kids(w, id), 0, q, n);
    VisitsAppend(all, after, l + 1);
    AboveVisits(after, l);
    assert |q.ids| == l + 1 && Visits(all, l + 1) + [] == Visits(all, l + 1);
    VisitsOfAll(w, Kids(w, id), 0, q, n);
    NextAfter(all, after, l);
    KidsListed(w, e, p);
  }

  lemma LastCalm(info: Info, e: Dirent, p: Place, rest: List)
    requires info == DP
    ensures Calm(Cons(Shows(info, e, p), rest), |p.ids| + 1) && Low(Cons(Shows(info, e, p), rest), |p.ids| + 1)
  {
  }

  lemma AboveVisits(a: List, l: int)
    requires a.Cons? && a.head.level == l
    ensures Visits(a, l + 1) == []
  {
  }

  lemma {:induction false} TellsWalkAll(w: World, es: seq<Dirent>, i: nat, p: Place, n: nat, dev: bv64, rest: List)
    requires Calm(rest, |p.ids|) && Low(rest, |p.ids|) && i <= |es|
    requires if |p.ids| == 0 then rest == Nil
             else dev == p.dev && Tells(w, rest, n + Length(WalkAll(w, es, i, p, n)), dev)
    ensures Tells(w, Append(WalkAll(w, es, i, p, n), rest), n, dev)
    decreases Left(w, p.ids), |es| - i, 2
  {
    hide Walk, InfoOf, Calm, Follows;
    if i < |es| {
      var first := Walk(w, es[i], p, n);
      var m := n + Length(first);
      var more := WalkAll(w, es, i + 1, p, m);
      AppendAppend(first, more, rest);
      AppendLength(first, more);
      TellsWalkAll(w, es, i + 1, p, m, DevOf(es[i], p), rest);
      CalmMore(w, es, i + 1, p, m, rest);
      LowMore(w, es, i + 1, p, m, rest);
      TellsWalk(w, es[i], p, n, dev, Append(more, rest));
    } else {
      assert Append(Nil, rest) == rest && Length(Nil) == 0;
    }
  }

  lemma LowMore(w: World, es: seq<Dirent>, i: nat, p: Place, n: nat, rest: List)
    requires Low(rest, |p.ids|) && i <= |es|
    ensures Low(Append(WalkAll(w, es, i, p, n), rest), |p.ids|)
  {
    if i < |es| {
      var first := Walk(w, es[i], p, n);
      assert first.head == Shows(InfoOf(es[i], p.ids), es[i], p);
      assert Append(first, WalkAll(w, es, i + 1, p, n + Length(first))).head == first.head;
    }
  }

  // ---------------------------------------------------------------- the whole walk

  /** The roots are visited once each, in order, under their own paths and by their last component. */
  predicate RootsVisited(roots: seq<Dirent>, visits: seq<Event>) {
    |visits| == |roots| && forall i :: 0 <= i < |roots| ==>
      visits[i].path == roots[i].name && visits[i].target == roots[i].target
      && IsLeaf(roots[i].name, visits[i].name)
  }

  /** What follows the last slash, but for the path "/". */
  predicate IsLeaf(path: string, leaf: string) {
    if path == "/" then leaf == "/"
    else '/' !in leaf && |leaf| <= |path| && path[|path| - |leaf|..] == leaf
         && (|leaf| < |path| ==> path[|path| - |leaf| - 1] == '/')
  }

  lemma LeafMeans(name: string)
    ensures IsLeaf(name, LeafOf(name))
  {
    if '/' in name {
      AfterSlashMeans(name);
    }
  }

  lemma {:induction false} AfterSlashMeans(name: string)
    requires '/' in name
    ensures var leaf := AfterSlash(name);
            '/' !in leaf && |leaf| < |name| && name[|name| - |leaf|..] == leaf && name[|name| - |leaf| - 1] == '/'
  {
    if name[|name| - 1] != '/' {
      AfterSlashMeans(name[..|name| - 1]);
    }
  }

  /** The walk returns, of every directory that is entered, each entry that counts exactly once, where it is, and
      nothing else; and the roots. */
  lemma WalkIsComplete(w: World, roots: seq<Dirent>)
    ensures var walk := WalkAll(w, roots, 0, TOP, 0); Tells(w, walk, 0, 0) && RootsVisited(roots, Visits(walk, 0))
  {
    var walk := WalkAll(w, roots, 0, TOP, 0);
    assert Tells(w, Nil, Length(walk), 0);
    TellsWalkAll(w, roots, 0, TOP, 0, 0, Nil);
    AppendNil(walk);
    VisitsOfAll(w, roots, 0, TOP, 0);
    ShownAt(roots, 0, TOP);
    var visits := Shown(roots, 0, TOP);
    forall i | 0 <= i < |roots|
      ensures visits[i].path == roots[i].name && visits[i].target == roots[i].target
              && IsLeaf(roots[i].name, visits[i].name)
    {
      assert visits[i] == Shows(InfoOf(roots[0 + i], TOP.ids), roots[0 + i], TOP);
      LeafMeans(roots[i].name);
    }
  }

  /** What is returned of it is its beginning. */
  lemma {:induction false} CutBegins(w: World, a: List, n: nat, dev: bv64)
    ensures Sequence(Cut(w, a, n, dev)) <= Sequence(a)
  {
    if a.Cons? {
      var d := DevAfter(a.head, dev);
      CutBegins(w, a.tail, n + 1, d);
      assert Sequence(a) == [a.head] + Sequence(a.tail) && Sequence(Nil) == [];
    }
  }
}
