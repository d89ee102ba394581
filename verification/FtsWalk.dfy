/** The machine of src/fts.c under FTS_NOCHDIR: fts_open, fts_read, fts_children, fts_build, fts_stat and fts_sort over
    linked nodes, the table of directories and the path buffer. */
module FtsWalk {
  import opened Basics
  import opened FtsSpec
  import opened FtsFrames
  import opened FtsStop
  import opened FtsTheorems
  import opened FtsCycle
  import opened FtsGauge
  import opened FtsPath
  import FtsComplete

  // ---------------------------------------------------------------- the nodes of the open directories

  /** A node of the entry e that fts_read has not returned yet. */
  ghost predicate Pending(n: Node, e: Dirent, p: Place, parent: Node, size: nat)
    reads n
  {
    && n.item == e && n.level == p.Level() && n.parent == parent
    && n.info == InfoOf(e, p.ids) && n.name == e.name
    && (p.Level() > 0 ==> n.pathLen == |PathOf(e, p)|) && 0 < |PathOf(e, p)| < size && NUL !in PathOf(e, p)
  }

  /** A node linked into its directory's list for good. */
  ghost predicate Returned(n: Node, e: Dirent, p: Place, parent: Node, size: nat)
    reads n
  {
    && n.item == e && n.level == p.Level() && n.parent == parent
    && n.name == NameOf(e, p.Level()) && 0 < n.pathLen == |PathOf(e, p)| < size && NUL !in PathOf(e, p)
  }

  ghost predicate Linked(nodes: seq<Node>, j: nat)
    reads nodes
    requires j < |nodes|
  {
    nodes[j].link == if j + 1 < |nodes| then nodes[j + 1] else null
  }

  ghost predicate Links(nodes: seq<Node>)
    reads nodes
  {
    Distinct(nodes) && forall j :: 0 <= j < |nodes| ==> Linked(nodes, j)
  }

  ghost predicate Row(f: Frame, parent: Node, size: nat)
    reads f.nodes
  {
    && f.at < |f.items| && |f.nodes| == |f.items| - f.at
    && Links(f.nodes)
    && (0 <= f.at ==> Returned(f.nodes[0], f.items[f.at], f.place, parent, size))
    && (forall j :: 0 < j < |f.nodes| && 0 <= f.at + j ==>
          Pending(f.nodes[j], f.items[f.at + j], f.place, parent, size))
  }

  function SetOf(nodes: seq<Node>): set<Node> {
    set n | n in nodes
  }

  function Nodes(s: Stack): set<Node> {
    if s.Floor? then {} else SetOf(s.top.nodes) + Nodes(s.below)
  }

  function ParentOf(s: Stack, root: Node): Node
    requires s.On? && (s.below.On? ==> |s.below.top.nodes| > 0)
  {
    if s.below.Floor? then root else s.below.top.nodes[0]
  }

  ghost predicate Held(s: Stack, root: Node, size: nat)
    reads Nodes(s)
  {
    s.On? ==>
      && (s.below.On? ==> |s.below.top.nodes| > 0)
      && Row(s.top, ParentOf(s, root), size)
      && SetOf(s.top.nodes) !! Nodes(s.below)
      && Held(s.below, root, size)
  }

  /** Every frame holds the entries of the directory below it. */
  predicate Chained(s: Stack) {
    s.On? ==>
      && (if s.below.Floor? then s.top.place == TOP
          else s.below.top.Opened() && s.top.place == Inner(s.below.top.Head(), s.below.top.place))
      && Chained(s.below)
  }

  lemma {:induction false} HeldGrows(s: Stack, root: Node, size: nat, size': nat)
    requires Held(s, root, size) && size <= size'
    ensures Held(s, root, size')
  {
    if s.On? {
      HeldGrows(s.below, root, size, size');
    }
  }

  lemma TopRow(s: Stack, root: Node, size: nat)
    requires Held(s, root, size) && s.On?
    ensures (s.below.On? ==> |s.below.top.nodes| > 0) && Row(s.top, ParentOf(s, root), size)
  {
  }

  lemma HeadReturned(s: Stack, root: Node, size: nat)
    requires Held(s, root, size) && s.On? && s.top.Inside()
    ensures |s.top.nodes| > 0 && (s.below.On? ==> |s.below.top.nodes| > 0)
    ensures Returned(s.top.nodes[0], s.top.Head(), s.top.place, ParentOf(s, root), size)
  {
    assert Row(s.top, ParentOf(s, root), size);
  }

  /** The directory above. */
  lemma BelowHeld(s: Stack, root: Node, size: nat)
    requires Held(s, root, size) && Usable(s) && Chained(s) && s.below.On? && 0 <= s.top.at
    ensures var b := s.below;
            && Held(b, root, size) && Usable(b) && Chained(b) && Nodes(b) <= Nodes(s) && b.top.Opened()
            && |s.top.nodes| > 0 && |b.top.nodes| > 0 && s.top.nodes[0].parent == b.top.nodes[0]
            && s.top.place.dir == PathOf(b.top.Head(), b.top.place)
            && s.top.place.dev == DevOf(b.top.Head(), b.top.place)
            && s.top.place.Level() > 0 && b.top.nodes[0].pathLen == |s.top.place.dir| < size
  {
    HeadReturned(s, root, size);
    HeadReturned(s.below, root, size);
  }

  lemma RootsAtBottom(s: Stack)
    requires Chained(s) && s.On?
    ensures s.below.Floor? <==> s.top.place.Level() == 0
  {
  }

  lemma LastNode(s: Stack, root: Node, size: nat)
    requires Held(s, root, size) && Usable(s) && (s.top.at < 0 ==> s.top.items != [])
    requires |s.top.nodes| > 0 && s.top.nodes[0].link == null
    ensures 0 <= s.top.at && s.top.at + 1 == |s.top.items|
  {
    LinkAt(s.top.nodes, 0);
  }

  lemma ParentLevel(s: Stack, root: Node, size: nat)
    requires Held(s, root, size) && Usable(s) && 0 <= s.top.at && root.level == -1
    ensures |s.top.nodes| > 0 && s.top.nodes[0].parent != null
    ensures s.below.Floor? <==> s.top.nodes[0].parent.level == -1
    ensures s.below.On? ==> s.top.nodes[0].parent in Nodes(s)
  {
    HeadReturned(s, root, size);
    if s.below.On? {
      HeadReturned(s.below, root, size);
    }
  }

  lemma SecondPending(f: Frame, parent: Node, size: nat)
    requires Row(f, parent, size) && -1 <= f.at && f.at + 1 < |f.items|
    ensures |f.nodes| > 1 && f.nodes[0].link == f.nodes[1]
    ensures Pending(f.nodes[1], f.items[f.at + 1], f.place, parent, size)
  {
    LinkAt(f.nodes, 0);
    var j := 1;
    assert Pending(f.nodes[j], f.items[f.at + j], f.place, parent, size);
  }

  /** A row whose next entry has been loaded. */
  ghost predicate Loaded(f: Frame, parent: Node, size: nat)
    reads f.nodes
  {
    && -1 <= f.at && f.at + 1 < |f.items| && |f.nodes| == |f.items| - f.at
    && Links(f.nodes)
    && Returned(f.nodes[1], f.items[f.at + 1], f.place, parent, size)
    && (forall j :: 1 < j < |f.nodes| ==> Pending(f.nodes[j], f.items[f.at + j], f.place, parent, size))
  }

  lemma AdvanceRow(f: Frame, g: Frame, parent: Node, size: nat)
    requires Loaded(f, parent, size)
    requires g == f.(at := f.at + 1, nodes := f.nodes[1..])
    ensures Row(g, parent, size) && SetOf(g.nodes) <= SetOf(f.nodes)
  {
    hide Pending, Returned;
    forall j | 0 < j < |g.nodes| ensures Pending(g.nodes[j], g.items[g.at + j], g.place, parent, size) {
      assert Pending(f.nodes[j + 1], f.items[f.at + (j + 1)], f.place, parent, size);
    }
    forall j | 0 <= j < |g.nodes| ensures Linked(g.nodes, j) {
      LinkAt(f.nodes, j + 1);
    }
    forall j, k | 0 <= j < k < |g.nodes| ensures g.nodes[j] != g.nodes[k] {
      assert f.nodes[j + 1] != f.nodes[k + 1];
    }
  }

  /** ...and the stack it is on. */
  ghost predicate Shifted(s: Stack, root: Node, size: nat)
    reads Nodes(s)
  {
    && s.On? && (s.below.On? ==> |s.below.top.nodes| > 0)
    && Loaded(s.top, ParentOf(s, root), size)
    && SetOf(s.top.nodes) !! Nodes(s.below) && Held(s.below, root, size)
  }

  lemma AdvanceHeld(s: Stack, root: Node, size: nat)
    requires Shifted(s, root, size)
    ensures Held(Advance(s), root, size) && Nodes(Advance(s)) <= Nodes(s)
  {
    var t := Advance(s);
    AdvanceRow(s.top, t.top, ParentOf(s, root), size);
    assert t.below == s.below && ParentOf(t, root) == ParentOf(s, root);
  }

  /** Below the roots there is nothing to load. */
  lemma AlreadyLoaded(s: Stack, root: Node, size: nat)
    requires Held(s, root, size) && s.On? && 0 <= s.top.at && |s.top.nodes| > 1 && s.top.place.Level() > 0
    ensures Shifted(s, root, size)
  {
    assert Pending(s.top.nodes[1], s.top.items[s.top.at + 1], s.top.place, ParentOf(s, root), size);
  }

  /** fts_load, but for the buffer. */
  method LoadRoot(p: Node, ghost f: Frame, ghost root: Node, ghost size: nat)
    requires Row(f, root, size) && -1 <= f.at && |f.nodes| > 1 && p == f.nodes[1] && f.place.Level() == 0
    modifies p`name, p`pathLen
    ensures Loaded(f, root, size)
  {
    SecondPending(f, root, size);
    RowParts(f, root, size);
    label L:
    p.pathLen := |p.name|;
    p.name := LeafOf(p.name);
    SameLinks@L(f.nodes);
    forall j | 1 < j < |f.nodes| ensures Pending(f.nodes[j], f.items[f.at + j], f.place, root, size) {
      assert f.nodes[j] != f.nodes[1];
    }
  }

  lemma RowParts(f: Frame, parent: Node, size: nat)
    requires Row(f, parent, size)
    ensures |f.nodes| == |f.items| - f.at && Links(f.nodes) && Distinct(f.nodes)
    ensures forall j :: 0 < j < |f.nodes| && 0 <= f.at + j ==>
            Pending(f.nodes[j], f.items[f.at + j], f.place, parent, size)
  {
  }

  twostate lemma SameLinks(nodes: seq<Node>)
    requires old(Links(nodes))
    requires forall n :: n in nodes ==> n.link == old(n.link)
    ensures Links(nodes)
  {
    forall j | 0 <= j < |nodes| ensures Linked(nodes, j) {
      assert nodes[j] in nodes && old(Linked(nodes, j));
    }
  }

  lemma RootShifted(s: Stack, root: Node, size: nat)
    requires s.On? && s.below.Floor? && Loaded(s.top, root, size)
    ensures Shifted(s, root, size)
  {
  }

  /** The stack once the first entry of a directory has been loaded. */
  lemma DescendHeld(w: World, s: Stack, root: Node, size: nat, nodes: seq<Node>)
    requires s.On? && Held(s, root, size) && s.top.Opened() && s.top.Head().target.id in w.dirs
    requires nodes != [] && Links(nodes) && SetOf(nodes) !! Nodes(s)
    requires AllPending(nodes, Kids(w, s.top.Head().target.id), Inner(s.top.Head(), s.top.place), s.top.nodes[0], size)
    ensures Held(Descend(w, s, nodes), root, size) && Nodes(Descend(w, s, nodes)) == SetOf(nodes) + Nodes(s)
  {
    var f := Descend(w, s, nodes).top;
    assert Descend(w, s, nodes).below == s;
    assert Pending(nodes[0], f.items[0], f.place, s.top.nodes[0], size);
    forall j | 0 < j < |nodes| ensures Pending(nodes[j], f.items[f.at + j], f.place, s.top.nodes[0], size) {
      assert Pending(nodes[j], f.items[j], f.place, s.top.nodes[0], size);
    }
  }

  /** The path of an entry, as fts_build and fts_read write it. */
  lemma SaidJoin(buffer: string, dir: string, name: string)
    requires NUL !in dir && NUL !in name
    ensures NUL !in Join(dir, name) && (Says(buffer, Trim(dir) + "/" + name) ==> Text(buffer) == Join(dir, name))
  {
    assert forall c :: c in Trim(dir) ==> c in dir;
    if Says(buffer, Trim(dir) + "/" + name) {
      TextSaid(buffer, Join(dir, name));
    }
  }

  /** A directory's path begins those of its entries. */
  lemma JoinBegins(dir: string, name: string)
    ensures dir <= Join(dir, name)
  {
  }

  // ---------------------------------------------------------------- the directories on the way down

  /** n is the node of an open directory, and id its identity. */
  predicate IsOpen(s: Stack, n: Node, id: Id) {
    s.On? &&
    (|| (s.top.Opened() && |s.top.nodes| > 0 && s.top.nodes[0] == n && s.top.Head().target == Directory(id))
     || IsOpen(s.below, n, id))
  }

  function Ids(s: Stack): seq<Id> {
    if s.Floor? || !s.top.Opened() then [] else Ids(s.below) + [s.top.Head().target.id]
  }

  lemma {:induction false} ChainedIds(s: Stack)
    requires Chained(s) && s.On?
    ensures Ids(s.below) == s.top.place.ids
    ensures s.top.Opened() ==> Ids(s) == Inner(s.top.Head(), s.top.place).ids
  {
    if s.below.On? {
      ChainedIds(s.below);
    }
  }

  lemma {:induction false} OpenIn(s: Stack, n: Node, id: Id)
    requires Chained(s) && IsOpen(s, n, id) && s.On? && s.top.Opened()
    ensures id in Ids(s)
  {
    if !(|s.top.nodes| > 0 && s.top.nodes[0] == n && s.top.Head().target == Directory(id)) {
      OpenIn(s.below, n, id);
    }
  }

  /** The node t stands for the directory at the top of s, all of s being open. */
  ghost predicate StandsFor(t: Node?, s: Stack, root: Node, size: nat)
    reads Nodes(s)
  {
    && Chained(s) && Held(s, root, size) && root.level == -1
    && (if s.Floor? then t == root else s.top.Opened() && t == s.top.nodes[0])
  }

  lemma Climb(t: Node?, s: Stack, root: Node, size: nat, id: Id)
    requires StandsFor(t, s, root, size) && t.level >= 0
    ensures s.On? && t == s.top.nodes[0] && t.parent != null && StandsFor(t.parent, s.below, root, size)
    ensures id in Ids(s) <==> id == IdOf(t) || id in Ids(s.below)
  {
    HeadNode(s, root, size);
  }

  lemma Summit(t: Node?, s: Stack, root: Node, size: nat, id: Id)
    requires StandsFor(t, s, root, size) && t.level < 0
    ensures s.Floor? && id !in Ids(s)
  {
    if s.On? {
      HeadNode(s, root, size);
    }
  }

  /** The node of an open directory. */
  lemma HeadNode(s: Stack, root: Node, size: nat)
    requires Held(s, root, size) && Chained(s) && s.On? && s.top.Opened()
    ensures |s.top.nodes| > 0 && s.top.Head().target.Directory?
    ensures var n := s.top.nodes[0];
            && n.parent == ParentOf(s, root) && 0 <= n.level == |s.top.place.ids| && IdOf(n) == s.top.Head().target.id
            && Ids(s) == Ids(s.below) + [IdOf(n)]
  {
    assert Row(s.top, ParentOf(s, root), size);
  }

  /** The loop of fts_stat over the ancestors. */
  method IsAbove(id: Id, parent: Node, root: Node, ghost s: Stack, ghost size: nat) returns (above: bool)
    requires StandsFor(parent, s, root, size)
    ensures above <==> id in Ids(s)
  {
    hide StandsFor, Ids;
    var t: Node? := parent;
    ghost var u := s;
    while t.level >= 0
      invariant t != null && StandsFor(t, u, root, size) && (id in Ids(s) <==> id in Ids(u))
      decreases u
    {
      Climb(t, u, root, size, id);
      if IdOf(t) == id {
        return true;
      }
      t, u := t.parent, u.below;
    }
    Summit(t, u, root, size, id);
    above := false;
  }

  /** The table knows none but the open directories. */
  ghost predicate Contained(view: map<Id, Node>, s: Stack) {
    forall id :: id in view ==> IsOpen(s, view[id], id)
  }

  /** One step along a directory leaves open what is below. */
  lemma AdvanceOpen(s: Stack, view: map<Id, Node>)
    requires Chained(s) && s.On? && |s.top.nodes| > 0 && Contained(view, s.below)
    ensures Chained(Advance(s)) && Contained(view, Advance(s))
  {
    forall id | id in view
      ensures IsOpen(Advance(s), view[id], id)
    {
      assert IsOpen(s.below, view[id], id);
    }
  }

  lemma DescendOpen(w: World, s: Stack, nodes: seq<Node>, view: map<Id, Node>)
    requires s.On? && s.top.Opened() && s.top.Head().target.id in w.dirs && Kids(w, s.top.Head().target.id) != []
    requires Usable(s) && Chained(s) && Contained(view, s)
    ensures var t := Descend(w, s, nodes); Usable(t) && t.top.Inside() && Chained(t) && Contained(view, t)
  {
    forall id | id in view
      ensures IsOpen(Descend(w, s, nodes), view[id], id)
    {
      assert IsOpen(s, view[id], id);
    }
  }

  /** fts_dev and fts_ino of a node: they are set for directories only, and not beyond the deepest level. */
  function IdOf(n: Node): Id {
    if n.level < SHRT_MAX && n.item.target.Directory? then n.item.target.id else Id(0, 0)
  }

  /** The nodes of the entries of a directory, all still to come. */
  ghost predicate AllPending(nodes: seq<Node>, items: seq<Dirent>, p: Place, parent: Node, size: nat)
    reads nodes
  {
    |nodes| == |items| && forall j :: 0 <= j < |nodes| ==> Pending(nodes[j], items[j], p, parent, size)
  }

  lemma FirstPending(nodes: seq<Node>, items: seq<Dirent>, p: Place, parent: Node, size: nat)
    requires AllPending(nodes, items, p, parent, size) && nodes != []
    ensures items != [] && Pending(nodes[0], items[0], p, parent, size)
  {
  }

  lemma NoNodes(p: Place, parent: Node, size: nat)
    ensures AllPending([], [], p, parent, size) && Distinct([])
  {
  }

  lemma PendingPush(nodes: seq<Node>, items: seq<Dirent>, n: Node, e: Dirent, p: Place, parent: Node, size: nat,
                    size': nat)
    requires AllPending(nodes, items, p, parent, size) && size <= size' && Distinct(nodes)
    requires Pending(n, e, p, parent, size') && n !in nodes
    ensures AllPending(nodes + [n], items + [e], p, parent, size') && Distinct(nodes + [n])
  {
    forall j | 0 <= j < |nodes| ensures Pending(nodes[j], items[j], p, parent, size') {
      assert Pending(nodes[j], items[j], p, parent, size);
    }
  }

  predicate Distinct(nodes: seq<Node>) {
    forall j, k :: 0 <= j < k < |nodes| ==> nodes[j] != nodes[k]
  }

  /** fts_info of the node at the top, by what it was at first. */
  predicate Later(info: Info, first: Info) {
    if first == D then info == D || info == DP || info == DNR || info == ERR else info == first
  }

  /** The list of a directory, in this order: the links fts_build and fts_open set as they go, or those of fts_sort. */
  method Chain(nodes: seq<Node>)
    requires Distinct(nodes)
    modifies (set n | n in nodes)`link
    ensures Links(nodes)
  {
    var i := 0;
    while i < |nodes|
      invariant i <= |nodes|
      invariant forall j :: 0 <= j < i ==> Linked(nodes, j)
    {
      label L:
      nodes[i].link := if i + 1 < |nodes| then nodes[i + 1] else null;
      forall j | 0 <= j <= i ensures Linked(nodes, j) {
        assert j < i ==> nodes[j] != nodes[i] && old@L(Linked(nodes, j));
      }
      i := i + 1;
    }
  }

  function Items(nodes: seq<Node>): seq<Dirent> {
    seq(|nodes|, i requires 0 <= i < |nodes| => nodes[i].item)
  }

  predicate InOrder(nodes: seq<Node>, compar: (Dirent, Dirent) -> int) {
    forall i, j :: 0 <= i < j < |nodes| ==> compar(nodes[i].item, nodes[j].item) <= 0
  }

  /** fts_sort: the nodes in the order qsort leads to, that of the comparison function if it does its work, linked
      anew. */
  method Sort(nodes: seq<Node>, order: seq<nat>) returns (sorted: seq<Node>)
    requires Distinct(nodes)
    modifies SetOf(nodes)`link
    ensures Links(sorted) && |sorted| == |nodes| && SetOf(sorted) <= SetOf(nodes)
    ensures forall i :: 0 <= i < |nodes| ==> sorted[i] == nodes[if Permutes(order, |nodes|) then order[i] else i]
    ensures forall compar :: Sorts(order, Items(nodes), compar) ==> InOrder(sorted, compar)
  {
    sorted := nodes;
    if Permutes(order, |nodes|) {
      sorted := seq(|nodes|, i requires 0 <= i < |nodes| && Permutes(order, |nodes|) => nodes[order[i]]);
    }
    Chain(sorted);
    forall compar | Sorts(order, Items(nodes), compar) ensures InOrder(sorted, compar) {
      SortedNodes(nodes, order, sorted, compar);
    }
  }

  lemma SortedNodes(nodes: seq<Node>, order: seq<nat>, sorted: seq<Node>, compar: (Dirent, Dirent) -> int)
    requires Sorts(order, Items(nodes), compar) && |sorted| == |nodes|
    requires forall i :: 0 <= i < |nodes| ==> sorted[i] == nodes[order[i]]
    ensures InOrder(sorted, compar)
  {
    var items := Items(nodes);
    forall i, j | 0 <= i < j < |sorted| ensures compar(sorted[i].item, sorted[j].item) <= 0 {
      assert compar(items[order[i]], items[order[j]]) <= 0;
    }
  }

  method Arrange(found: seq<Node>, order: seq<nat>, ghost items: seq<Dirent>, ghost p: Place, ghost parent: Node,
                 ghost size: nat) returns (nodes: seq<Node>)
    requires Distinct(found) && AllPending(found, items, p, parent, size)
    modifies SetOf(found)`link
    ensures Links(nodes) && SetOf(nodes) <= SetOf(found) && AllPending(nodes, Arranged(items, order), p, parent, size)
  {
    hide InfoOf, Classify, Links, Arranged, Permutes;
    label L:
    nodes := Sort(found, order);
    ArrangedAt(items, order);
    forall j | 0 <= j < |nodes| ensures Pending(nodes[j], Arranged(items, order)[j], p, parent, size) {
      ghost var i := if Permutes(order, |found|) then order[j] else j;
      assert old@L(Pending(found[i], items[i], p, parent, size));
    }
  }

  lemma ArrangedAt(items: seq<Dirent>, order: seq<nat>)
    ensures Permutes(order, |items|) ==> |order| == |items| && forall i :: 0 <= i < |items| ==> order[i] < |items|
    ensures forall j :: 0 <= j < |items| ==>
              Arranged(items, order)[j] == items[if Permutes(order, |items|) then order[j] else j]
  {
  }

  method MarkTop(p: Node, info: Info, ghost f: Frame, ghost parent: Node, ghost size: nat)
    requires Row(f, parent, size) && p == f.nodes[0]
    modifies p`info
    ensures Row(f, parent, size) && p.info == info
  {
    RowParts(f, parent, size);
    label L:
    p.info := info;
    SameLinks@L(f.nodes);
    forall j | 0 < j < |f.nodes| && 0 <= f.at + j
      ensures Pending(f.nodes[j], f.items[f.at + j], f.place, parent, size)
    {
      assert old@L(Pending(f.nodes[j], f.items[f.at + j], f.place, parent, size));
    }
  }

  /** fts_maxarglen, without the terminator. */
  method LongestName(roots: seq<Dirent>) returns (longest: nat)
    ensures longest == Longest(roots)
  {
    longest := 0;
    var i := 0;
    while i < |roots|
      invariant i <= |roots| && longest == Longest(roots[..i])
    {
      assert roots[..i + 1][..i] == roots[..i];
      if |roots[i].name| > longest {
        longest := |roots[i].name|;
      }
      i := i + 1;
    }
    assert roots[..i] == roots;
  }

  lemma NoLinks()
    ensures Links([])
  {
  }

  lemma LinkAt(nodes: seq<Node>, i: nat)
    requires Links(nodes) && i < |nodes|
    ensures nodes[i].link == if i + 1 < |nodes| then nodes[i + 1] else null
  {
    assert Linked(nodes, i);
  }

  lemma FirstRow(f: Frame, first: Node, nodes: seq<Node>, root: Node, size: nat)
    requires f.nodes == [first] + nodes && f.at == -1 && nodes != [] && f.items != []
    requires AllPending(nodes, f.items, f.place, root, size) && Links(nodes) && first !in nodes
             && first.link == nodes[0]
    ensures Row(f, root, size)
  {
    hide InfoOf, PathOf;
    forall j | 0 <= j < |f.nodes| ensures Linked(f.nodes, j) {
      if j > 0 {
        assert f.nodes[j] == nodes[j - 1];
        LinkAt(nodes, j - 1);
      }
      assert j + 1 < |f.nodes| ==> f.nodes[j + 1] == nodes[j];
    }
    forall j | 0 < j < |f.nodes| ensures Pending(f.nodes[j], f.items[f.at + j], f.place, root, size) {
      assert Pending(nodes[j - 1], f.items[j - 1], f.place, root, size);
    }
  }

  /** A stack of one frame. */
  lemma OnlyRow(f: Frame, root: Node, size: nat)
    requires Row(f, root, size) && f.place == TOP && -1 <= f.at
    ensures Held(On(f, Floor), root, size)
    ensures Usable(On(f, Floor)) && Chained(On(f, Floor)) && Nodes(On(f, Floor)) == SetOf(f.nodes)
  {
    assert Held(Floor, root, size) && Started(Floor) && Chained(Floor) && Nodes(Floor) == {};
  }

  lemma AtFirst(w: World, top: Frame)
    requires top.at == -1
    ensures Remaining(w, On(top, Floor), INIT, 0) == WalkAll(w, top.items, 0, top.place, 0)
  {
    var s := On(top, Floor);
    assert After(w, s, 0) == From(w, s, 0, 0) == Append(WalkAll(w, top.items, 0, top.place, 0), Nil);
    AppendNil(WalkAll(w, top.items, 0, top.place, 0));
  }

  // ---------------------------------------------------------------- the directory at the top, and the buffer's text

  function BuiltTop(w: World, s: Stack, g: Gauge): Gauge
    requires s.On? && s.top.Opened() && s.top.Head().target.id in w.dirs
  {
    Built(w, s.top.Head().target.id, PathOf(s.top.Head(), s.top.place), g)
  }

  predicate SpoiledTop(w: World, s: Stack)
    requires s.On? && s.top.Opened() && s.top.Head().target.id in w.dirs
  {
    Spoiled(w, s.top.Head().target.id, s.top.place.Level())
  }

  predicate AgainTop(w: World, s: Stack)
    requires s.On? && s.top.Opened() && s.top.Head().target.id in w.dirs
  {
    Again(w, s.top.Head().target.id, PathOf(s.top.Head(), s.top.place))
  }

  /** fts_build has read the directory at the top so many times.  The text in the path buffer is the directory's path at
      first, and then what fts_build leaves there. */
  predicate Stage(w: World, s: Stack, text: string, g: Gauge, builds: nat) {
    s.On? && s.top.Opened() &&
    if builds > 0 then
      && Opens(w, s) && !SpoiledTop(w, s)
      && text == TextAfter(w, s.top.Head().target.id, PathOf(s.top.Head(), s.top.place))
      && BuiltTop(w, s, g) == g && (builds > 1 ==> AgainTop(w, s))
    else
      text == PathOf(s.top.Head(), s.top.place)
  }

  /** What opening that text gives. */
  function Found(w: World, s: Stack, text: string): Maybe<Id>
    requires s.On? && s.top.Opened()
  {
    Opened(w, s.top.Head().target.id, PathOf(s.top.Head(), s.top.place), text)
  }

  predicate Itself(w: World, s: Stack, text: string)
    requires s.On? && s.top.Opened()
  {
    Found(w, s, text) == Just(s.top.Head().target.id)
  }

  predicate Childless(w: World, s: Stack)
    requires s.On? && s.top.Opened() && s.top.Head().target.id in w.dirs
  {
    Kids(w, s.top.Head().target.id) == []
  }

  /** The text is the directory's own path when fts_build has not read it, and with a slash when it is empty. */
  predicate OwnPath(w: World, s: Stack, text: string, builds: nat)
    requires s.On? && s.top.Opened()
  {
    var path := PathOf(s.top.Head(), s.top.place);
    && (builds == 0 ==> text == path)
    && (builds > 0 && s.top.Head().target.id in w.dirs && Childless(w, s) ==> text == Trim(path) + "/")
  }

  /** It opens the directory itself: at first if that can be opened, later as AgainMeans says. */
  lemma FoundMeans(w: World, s: Stack, text: string, g: Gauge, builds: nat)
    requires Stage(w, s, text, g, builds)
    ensures Itself(w, s, text) <==> if builds > 0 then AgainTop(w, s) else Opens(w, s)
    ensures (builds > 0 ==> Childless(w, s)) ==> Itself(w, s, text) || Found(w, s, text) == Nothing
    ensures OwnPath(w, s, text, builds)
  {
  }

  lemma StageNew(w: World, s: Stack, text: string, g: Gauge)
    requires s.On? && s.top.Opened() && text == PathOf(s.top.Head(), s.top.place)
    ensures Stage(w, s, text, g, 0)
  {
  }

  /** fts_build has read the directory once more. */
  lemma StageRead(w: World, s: Stack, text: string, g: Gauge, builds: nat, after: string)
    requires Stage(w, s, text, g, builds) && Itself(w, s, text) && s.top.Head().target.id in w.dirs && !SpoiledTop(w, s)
    requires after == TextAfter(w, s.top.Head().target.id, PathOf(s.top.Head(), s.top.place))
    ensures Stage(w, s, after, BuiltTop(w, s, g), builds + 1)
  {
    FoundMeans(w, s, text, g, builds);
    BuiltTwice(w, s.top.Head().target.id, PathOf(s.top.Head(), s.top.place), g);
  }

  lemma StageOpens(w: World, s: Stack, text: string, g: Gauge, builds: nat)
    requires Stage(w, s, text, g, builds) && (builds > 0 || Itself(w, s, text))
    ensures s.On? && s.top.Opened() && s.top.Head().target.id in w.dirs && Opens(w, s)
  {
    FoundMeans(w, s, text, g, builds);
  }

  /** fts_build gives up in the directory at the top, the n-th node. */
  predicate HaltsTop(w: World, s: Stack, n: nat, dev: bv64)
    requires s.On? && s.top.Inside() && n > 0
  {
    Halts(w, Shows(D, s.top.Head(), s.top.place), n - 1, dev)
  }

  /** What fts_read has still to return when it has just returned the node at the top with this info. */
  function Coming(w: World, s: Stack, info: Info, n: nat, dev: bv64): List
    requires Usable(s) && (info == D ==> n > 0 && s.top.Opened())
  {
    if info == D && HaltsTop(w, s, n, dev) then Nil else Cut(w, Remaining(w, s, info, n), n, dev)
  }

  /** What the buffer will have come to when the next node is returned... */
  function AtNext(w: World, s: Stack, info: Info, n: nat, dev: bv64, g: Gauge): Gauge
    requires Usable(s) && (info == D ==> n > 0 && s.top.Opened())
  {
    if info == D && Builds(w, Shows(D, s.top.Head(), s.top.place), n - 1, dev) then BuiltTop(w, s, g) else g
  }

  /** ...and at the end of the run. */
  function AtEnd(w: World, s: Stack, info: Info, n: nat, dev: bv64, g: Gauge): Gauge
    requires Usable(s) && (info == D ==> n > 0 && s.top.Opened())
  {
    Measured(w, Coming(w, s, info, n, dev), n, dev, AtNext(w, s, info, n, dev, g))
  }

  /** A node has just been returned: what comes does not depend any more on how it was reached. */
  lemma Arrived(w: World, s: Stack, info: Info, n: nat, before: bv64, g: Gauge)
    requires Usable(s) && s.top.Inside() && n > 0 && (info == D ==> s.top.Opened())
    requires s.top.place.Level() > 0 ==> before == s.top.place.dev
    ensures var e, dev := Shows(info, s.top.Head(), s.top.place), DevOf(s.top.Head(), s.top.place);
            && Cut(w, Cons(e, Remaining(w, s, info, n)), n - 1, before) == Cons(e, Coming(w, s, info, n, dev))
            && Measured(w, Cons(e, Coming(w, s, info, n, dev)), n - 1, before, g) == AtEnd(w, s, info, n, dev, g)
  {
    hide Measured, Cut, Remaining, Built;
    var e, dev := Shows(info, s.top.Head(), s.top.place), DevOf(s.top.Head(), s.top.place);
    CutStep(w, e, Remaining(w, s, info, n), n - 1, before);
    MeasuredStep(w, e, Coming(w, s, info, n, dev), n - 1, before, g);
  }

  /** fts_children: the text opens the directory itself, or what comes is the same as after FTS_ERR. */
  lemma Relisted(w: World, s: Stack, n: nat, text: string, g: Gauge, builds: nat)
    requires Stage(w, s, text, g, builds) && Usable(s) && n > 0 && builds < w.list(n - 1)
    ensures var dev := DevOf(s.top.Head(), s.top.place);
            if !Itself(w, s, text) then
              && Coming(w, s, ERR, n, dev) == Coming(w, s, D, n, dev)
              && AtEnd(w, s, ERR, n, dev, g) == AtEnd(w, s, D, n, dev, g)
            else if SpoiledTop(w, s) then
              Coming(w, s, D, n, dev) == Nil && AtEnd(w, s, D, n, dev, g) == BuiltTop(w, s, g)
            else
              AtEnd(w, s, D, n, dev, BuiltTop(w, s, g)) == AtEnd(w, s, D, n, dev, g)
  {
    hide Measured, Cut, Remaining, Usable, Built, Again, Spoiled, TextAfter;
    FoundMeans(w, s, text, g, builds);
    var dev := DevOf(s.top.Head(), s.top.place);
    if !Itself(w, s, text) {
      PassOver(w, s, n);
    } else {
      BuiltTwice(w, s.top.Head().target.id, PathOf(s.top.Head(), s.top.place), g);
      MeasuredNothing(w, n, dev, BuiltTop(w, s, g));
    }
  }

  /** fts_read, once fts_children has been called as often as it will be. */
  lemma Settled(w: World, s: Stack, n: nat, text: string, g: Gauge, builds: nat)
    requires Stage(w, s, text, g, builds) && Usable(s) && n > 0 && builds == w.list(n - 1)
    ensures !LostTop(w, s, n)
    ensures var dev := DevOf(s.top.Head(), s.top.place);
            && (builds > 0 || !Enters(w, s, n) ==> !HaltsTop(w, s, n, dev) && AtNext(w, s, D, n, dev, g) == g)
            && (builds > 0 && !Childless(w, s) ==> !RefusedTop(w, s, n))
            && (Itself(w, s, text) && Enters(w, s, n) ==>
                 !RefusedTop(w, s, n) && AtNext(w, s, D, n, dev, g) == BuiltTop(w, s, g)
                 && (HaltsTop(w, s, n, dev) <==> SpoiledTop(w, s)))
            && (!Itself(w, s, text) && (builds > 0 ==> Childless(w, s)) ==>
                 Found(w, s, text) == Nothing && RefusedTop(w, s, n) && !HaltsTop(w, s, n, dev)
                 && AtNext(w, s, D, n, dev, g) == g)
  {
    hide Usable, Built, Again, Spoiled, TextAfter;
    FoundMeans(w, s, text, g, builds);
  }

  lemma StillAll(all: seq<Event>, events: seq<Event>, more: seq<Event>, rest: List, left: List)
    requires all == events + Sequence(rest) && Sequence(rest) == more + Sequence(left)
    ensures all == (events + more) + Sequence(left)
  {
  }

  class Fts {
    const w: World
    /** The node above the roots, at level -1. */
    const root: Node
    const buf: PathBuffer
    const table: CycleTable
    var cur: Node?
    var child: Node?
    var dev: bv64
    /** FTS_STOP. */
    var stop: bool
    /** How many nodes fts_read has returned. */
    var count: nat
    /** How often fts_build has read the directory at the top. */
    ghost var builds: nat
    ghost var stack: Stack
    ghost var kids: seq<Node>
    ghost var repr: set<Node>

    ghost predicate Valid()
      reads this, buf, table, repr
    {
      && Fits(w) && buf.Valid() && table.Valid() && root.level == -1
      && (w.openMax <= PATH_MAX ==> !buf.overrun)
      && (cur != null ==> Going() && (child != null ==> Listed()) && (cur.info == D ==> Staged() && !stop))
    }

    /** The walk stands at the node on top of the stack. */
    ghost predicate Standing()
      reads this, buf, table, repr
    {
      && buf.Valid() && table.Valid() && root.level == -1
      && Usable(stack) && Chained(stack) && Nodes(stack) <= repr && Held(stack, root, buf.size)
      && cur == stack.top.nodes[0]
      && Contained(table.view, stack)
    }

    /** ...and has returned it, unless it is the one before the roots. */
    ghost predicate Going()
      reads this, buf, table, repr
    {
      && Standing()
      && (if stack.top.at < 0 then
            stack.below.Floor? && cur.info == INIT && count == 0 && stack.top.items != []
          else
            && count > 0 && Begins(buf.path, PathOf(stack.top.Head(), stack.top.place))
            && dev == DevOf(stack.top.Head(), stack.top.place)
            && Later(cur.info, InfoOf(stack.top.Head(), stack.top.place.ids)))
    }

    /** The entries of the directory at the top have been read. */
    ghost predicate Listed()
      reads this, buf, table, repr
      requires cur != null && Going()
    {
      && stack.top.Opened() && cur.info == D && Opens(w, stack) && builds > 0
      && kids != [] && child == kids[0] && SetOf(kids) <= repr && SetOf(kids) !! Nodes(stack)
      && Links(kids)
      && AllPending(kids, Kids(w, stack.top.Head().target.id), Inner(stack.top.Head(), stack.top.place), cur, buf.size)
    }

    ghost function Gauged(): Gauge
      reads buf
    {
      Gauge(buf.size, buf.overrun)
    }

    ghost predicate Staged()
      reads `stack, `builds, buf
    {
      Stage(w, stack, Text(buf.path), Gauged(), builds)
    }

    /** What is still to come, but for fts_build giving up. */
    ghost function Rest(): List
      reads this, buf, table, repr
      requires Valid()
    {
      if cur == null then Nil else Remaining(w, stack, cur.info, count)
    }

    /** What fts_read has still to return. */
    ghost function Ahead(): List
      reads this, buf, table, repr
      requires Valid()
    {
      if cur == null || stop then Nil else Coming(w, stack, cur.info, count, dev)
    }

    /** What the buffer will have come to at the end of the run. */
    ghost function Due(): Gauge
      reads this, buf, table, repr
      requires Valid()
    {
      if cur == null || stop then Gauged() else AtEnd(w, stack, cur.info, count, dev, Gauged())
    }

    /** fts_open for roots in the order of the walk. */
    constructor (w: World, roots: seq<Dirent>)
      requires Fits(w) && roots != []
      requires forall e :: e in roots ==> Named(e) && |e.name| < 0x1000_0000
      ensures Valid() && this.w == w && cur != null && cur.info != D && fresh(buf) && fresh(table) && fresh(repr)
      ensures Ahead() == Cut(w, WalkAll(w, roots, 0, TOP, 0), 0, 0)
      ensures Due() == Whole(w, roots)
    {
      this.w := w;
      var longest := LongestName(roots);
      LongestBounds(roots);
      var above := new Node(Dirent("", File), -1, null, INIT, 0);
      root := above;
      buf := new PathBuffer(longest);
      table := new CycleTable();
      cur, child, dev, stop, count := null, null, 0, false, 0;
      stack, kids, repr, builds := Floor, [], {}, 0;
      new;
      Begin(roots);
    }

    /** The rest of fts_open: the list of roots, and a node before them. */
    method Begin(roots: seq<Dirent>)
      requires Fits(w) && buf.Valid() && !buf.overrun && table.Valid() && table.view == map[] && root.level == -1
      requires cur == child == null && count == 0
      requires roots != [] && forall e :: e in roots ==> Named(e) && |e.name| < buf.size
      modifies this`cur, this`stack, this`repr
      ensures Valid() && cur != null && cur.info != D && fresh(repr) && dev == old(dev) && count == 0
      ensures Rest() == WalkAll(w, roots, 0, TOP, 0)
    {
      hide Contained, Held, Row, Chained, Links, WalkAll;
      var nodes := LinkRoots(roots);
      var first := new Node(Dirent("", File), 0, null, INIT, 0);
      first.link := nodes[0];
      ghost var top := Frame(roots, -1, TOP, [first] + nodes);
      FirstRow(top, first, nodes, root, buf.size);
      OnlyRow(top, root, buf.size);
      AtFirst(w, top);
      Stand(first, top);
    }

    method Stand(first: Node, ghost top: Frame)
      requires Fits(w) && buf.Valid() && !buf.overrun && table.Valid() && table.view == map[] && root.level == -1
      requires child == null && count == 0 && top.at == -1 && top.items != [] && first.info == INIT && top.nodes != []
               && first == top.nodes[0]
      requires Usable(On(top, Floor)) && Chained(On(top, Floor)) && Held(On(top, Floor), root, buf.size)
      requires Nodes(On(top, Floor)) == SetOf(top.nodes)
      modifies this`cur, this`stack, this`repr
      ensures Valid() && cur == first && stack == On(top, Floor) && repr == SetOf(top.nodes)
    {
      cur := first;
      stack := On(top, Floor);
      repr := SetOf(top.nodes);
    }

    /** The loop of fts_open over its arguments. */
    method LinkRoots(roots: seq<Dirent>) returns (nodes: seq<Node>)
      requires buf.Valid() && table.Valid() && root.level == -1 && table.view == map[]
      requires forall e :: e in roots ==> Named(e) && |e.name| < buf.size
      ensures forall n :: n in nodes ==> fresh(n)
      ensures AllPending(nodes, roots, TOP, root, buf.size) && Links(nodes)
    {
      hide InfoOf, Classify;
      nodes := [];
      var i := 0;
      while i < |roots|
        modifies {}
        invariant i <= |roots| && (forall n :: n in nodes ==> fresh(n)) && Distinct(nodes)
        invariant AllPending(nodes, roots[..i], TOP, root, buf.size)
      {
        var p := NewRoot(roots[i]);
        PendingPush(nodes, roots[..i], p, roots[i], TOP, root, buf.size, buf.size);
        assert roots[..i + 1] == roots[..i] + [roots[i]];
        nodes, i := nodes + [p], i + 1;
      }
      assert roots[..i] == roots;
      label L:
      Chain(nodes);
      forall j | 0 <= j < |nodes| ensures Pending(nodes[j], roots[j], TOP, root, buf.size) {
        assert old@L(Pending(nodes[j], roots[j], TOP, root, buf.size));
      }
    }

    method NewRoot(e: Dirent) returns (p: Node)
      requires table.Valid() && root.level == -1 && table.view == map[] && Named(e) && |e.name| < buf.size
      ensures fresh(p) && p.link == null && Pending(p, e, TOP, root, buf.size)
    {
      var info, _ := Stat(e, root, Floor, false);
      p := new Node(e, 0, root, if info == DOT then D else info, 0);
    }

    /** A directory that fts_build has read without leaving a list is empty. */
    ghost predicate Tidy()
      reads this, buf, table, repr
      requires Valid()
    {
      cur != null && cur.info == D && builds > 0 && child == null ==> Childless(w, stack)
    }

    /** ...and fts_children has been called for it as often as the world says. */
    ghost predicate Asked()
      reads this, buf, table, repr
      requires Valid()
    {
      Tidy() && (cur != null && cur.info == D ==> builds == w.list(count - 1))
    }

    /** fts_stat for an entry of the directory at the top of s: a cycle is an identity on the way down, and the table
        has none to add.  Also what it leaves in errno. */
    method Stat(e: Dirent, parent: Node, ghost s: Stack, errno: bool) returns (info: Info, errno': bool)
      requires table.Valid() && Contained(table.view, s) && StandsFor(parent, s, root, buf.size)
      ensures info == Classify(e, Ids(s)) && errno' == Errno(e, |Ids(s)| >= SHRT_MAX, errno)
    {
      errno' := errno;
      if s.On? {
        ChainedIds(s);
      }
      if parent.level + 1 >= SHRT_MAX {
        return ERR, true;
      }
      match e.target
      case File => return F, errno;
      case Link => return SL, errno;
      case DeadLink => return SLNONE, false;
      case NoStat => return NS, true;
      case Special => return Default, errno;
      case Directory(id) =>
        if IsDot(e.name) {
          return DOT, errno;
        }
        var above := IsAbove(id, parent, root, s, buf.size);
        if above {
          return DC, errno;
        }
        assert id !in table.view by {
          if id in table.view {
            assert IsOpen(s, table.view[id], id);
            OpenIn(s, table.view[id], id);
          }
        }
        var cycle := table.Lookup(id);
        info := if cycle != null then DC else D;
    }

    /** fts_cycle_push. */
    method Push(p: Node)
      requires table.Valid() && (p.info == D ==> IsOpen(stack, p, IdOf(p))) && Contained(table.view, stack)
      modifies table
      ensures table.Valid() && Contained(table.view, stack)
      ensures table.view == if p.info == D && IdOf(p) !in old(table.view) then old(table.view)[IdOf(p) := p]
              else old(table.view)
    {
      if p.info == D {
        table.Insert(IdOf(p), p);
      }
    }

    /** fts_cycle_pop: afterwards nothing in the table refers to the node at the top. */
    method Pop(p: Node)
      requires table.Valid() && Contained(table.view, stack) && stack.On?
      requires stack.top.Opened() ==> (p.info == D || p.info == DP || p.info == DNR || p.info == ERR)
                                      && stack.top.Head().target == Directory(IdOf(p))
      modifies table
      ensures table.Valid() && Contained(table.view, stack.below) && Contained(table.view, stack)
      ensures table.view == if p.info in {D, DC, DNR, DP, ERR} then old(table.view) - {IdOf(p)} else old(table.view)
    {
      if p.info == D || p.info == DC || p.info == DNR || p.info == DP || p.info == ERR {
        table.Remove(IdOf(p));
      }
    }

    ghost function Here(): Place
      reads this
      requires stack.On? && stack.top.Opened()
    {
      Inner(stack.top.Head(), stack.top.place)
    }

    /** fts_build is at work: the slash follows the path of the directory at the top. */
    ghost predicate Reading(dir: Node, len: nat)
      reads this, buf, table, repr
    {
      && Standing() && dir == cur && stack.On? && stack.top.Opened()
      && w.openMax < 0x2000_0000 && |Here().dir| < w.openMax
      && len == |Trim(Here().dir)| + 1 <= buf.size && NUL !in Here().dir
      && Begins(buf.path, Here().dir) && Begins(buf.path, Trim(Here().dir) + "/")
    }

    /** One round of the loop of fts_build. */
    method NewKid(e: Dirent, dir: Node, len: nat, errno: bool) returns (p: Node, errno': bool)
      requires Reading(dir, len) && Named(e) && |e.name| <= NAME_MAX
      modifies buf`path, buf`size
      ensures Reading(dir, len) && buf.size >= old(buf.size)
      ensures fresh(p) && p.link == null && Pending(p, e, Here(), dir, buf.size)
      ensures buf.size == NextSize(old(buf.size), len + |e.name|) && Text(buf.path) == Join(Here().dir, e.name)
      ensures errno' == Errno(e, |Here().ids| >= SHRT_MAX, errno)
    {
      hide Contained, Nodes, Held, NextSize, Chained, Classify, Text, Trim, Errno, Started;
      Write(e, dir, len);
      HeadNode(stack, root, buf.size);
      var info;
      info, errno' := Stat(e, dir, stack, errno);
      ChainedIds(stack);
      p := new Node(e, dir.level + 1, dir, info, len + |e.name|);
    }

    /** Its path, after that of the directory. */
    method Write(e: Dirent, ghost dir: Node, len: nat)
      requires Reading(dir, len) && Named(e) && |e.name| <= NAME_MAX
      modifies buf`path, buf`size
      ensures Reading(dir, len) && Text(buf.path) == Join(Here().dir, e.name) && NUL !in Join(Here().dir, e.name)
      ensures old(buf.size) <= buf.size == NextSize(old(buf.size), len + |e.name|) && len + |e.name| < buf.size
    {
      hide Contained, Nodes, Held, NextSize, Chained, Classify, Text;
      ghost var path := Here().dir;
      ghost var was := buf.path[..len];
      assert was == Trim(path) + "/";
      buf.Reserve(path, len, |e.name|);
      assert buf.path[..len] == was;
      HeldGrows(stack, root, old(buf.size), buf.size);
      buf.Place(path, len, e.name);
      SaidJoin(buf.path, path, e.name);
    }

    /** An entry that fts_build does not leave out. */
    method Keep(nodes: seq<Node>, ghost items: seq<Dirent>, e: Dirent, dir: Node, len: nat, errno: bool)
      returns (more: seq<Node>, errno': bool)
      requires Reading(dir, len) && Named(e) && |e.name| <= NAME_MAX
      requires Distinct(nodes) && AllPending(nodes, items, Here(), dir, buf.size)
      modifies buf`path, buf`size
      ensures Reading(dir, len) && buf.size >= old(buf.size)
      ensures Distinct(more) && fresh(SetOf(more) - SetOf(nodes))
      ensures AllPending(more, items + [e], Here(), dir, buf.size)
      ensures buf.size == NextSize(old(buf.size), len + |e.name|) && Text(buf.path) == TextOf(items + [e], Here().dir)
      ensures errno' == Errno(e, |Here().ids| >= SHRT_MAX, errno)
    {
      ghost var size := buf.size;
      var p;
      p, errno' := NewKid(e, dir, len, errno);
      PendingPush(nodes, items, p, e, Here(), dir, size, buf.size);
      more := nodes + [p];
    }

    /** The loop of fts_build over the entries of a directory, and the errno it ends with. */
    method Gather(entries: seq<Dirent>, dir: Node, len: nat) returns (nodes: seq<Node>, errno: bool)
      requires stack.On? && stack.top.Opened() && Reading(dir, len) && Text(buf.path) == Trim(Here().dir) + "/"
      requires forall i :: 0 <= i < |entries| ==> Named(entries[i]) && |entries[i].name| <= NAME_MAX
      modifies buf`path, buf`size
      ensures Reading(dir, len) && buf.size >= old(buf.size)
      ensures Distinct(nodes) && fresh(SetOf(nodes))
      ensures AllPending(nodes, All(w, entries), Here(), dir, buf.size)
      ensures buf.size == SizeAfter(w, entries, |entries|, len, old(buf.size))
      ensures Text(buf.path) == TextOf(All(w, entries), Here().dir)
      ensures errno == ErrnoAfter(w, entries, |entries|, |Here().ids| >= SHRT_MAX)
    {
      hide Standing, Held, Chained, Contained, Nodes, Pending, Kids, NextSize, InfoOf, Trim, Text, Errno, AllPending,
           Leaves, Distinct, Named, Reading;
      NoNodes(Here(), dir, buf.size);
      nodes, errno := [], false;
      ghost var items := [];
      var i := 0;
      while i < |entries|
        invariant i <= |entries| && stack.On? && stack.top.Opened()
        invariant Reading(dir, len) && buf.size >= old(buf.size)
        invariant Distinct(nodes) && fresh(SetOf(nodes))
        invariant items == Seen(w, entries, i) && AllPending(nodes, items, Here(), dir, buf.size)
        invariant buf.size == SizeAfter(w, entries, i, len, old(buf.size))
        invariant Text(buf.path) == TextOf(items, Here().dir)
        invariant errno == ErrnoAfter(w, entries, i, |Here().ids| >= SHRT_MAX)
      {
        if !Leaves(w, entries[i]) {
          nodes, errno := Keep(nodes, items, entries[i], dir, len, errno);
          items := items + [entries[i]];
        }
        i := i + 1;
      }
    }

    /** The nodes of the directory at the top, sorted and linked. */
    method ReadAll(entries: seq<Dirent>, dir: Node, len: nat) returns (nodes: seq<Node>, errno: bool)
      requires Reading(dir, len) && Text(buf.path) == Trim(Here().dir) + "/"
      requires forall i :: 0 <= i < |entries| ==> Named(entries[i]) && |entries[i].name| <= NAME_MAX
      modifies buf`path, buf`size
      ensures Reading(dir, len) && Links(nodes) && fresh(SetOf(nodes))
      ensures AllPending(nodes, Arranged(All(w, entries), w.arrange(All(w, entries))), Here(), dir, buf.size)
      ensures buf.size == SizeAfter(w, entries, |entries|, len, old(buf.size))
      ensures Text(buf.path) == TextOf(All(w, entries), Here().dir)
      ensures errno == ErrnoAfter(w, entries, |entries|, |Here().ids| >= SHRT_MAX)
    {
      var found;
      found, errno := Gather(entries, dir, len);
      nodes := Arrange(found, w.arrange(All(w, entries)), All(w, entries), Here(), dir, buf.size);
    }

    /** fts_info of the node at the top. */
    method Mark(p: Node, info: Info)
      requires Standing() && p == cur
      modifies p`info
      ensures Standing() && p.info == info
    {
      ghost var s := stack;
      assert p in SetOf(s.top.nodes) && p !in Nodes(s.below);
      MarkTop(p, info, s.top, ParentOf(s, root), buf.size);
      assert Held(s.below, root, buf.size);
    }

    /** fts_build: the children of the directory that the text in the path buffer opens, if that is the one at the top
        and errno is clear in the end; or none and a mark on it. */
    method Build(dir: Node, bread: bool) returns (nodes: seq<Node>)
      requires Valid() && dir == cur && child == null && dir.info == D && !stop
      modifies `stop, `builds, buf, dir`info
      ensures Valid() && Links(nodes) && fresh(SetOf(nodes))
      ensures if old(Itself(w, stack, Text(buf.path))) then
                Filled(nodes, dir, bread) && Gauged() == old(BuiltTop(w, stack, Gauged()))
                && (!stop ==> builds == old(builds) + 1)
              else
                && nodes == [] && !stop && Gauged() == old(Gauged())
                && dir.info == if bread && old(Found(w, stack, Text(buf.path))) == Nothing then DNR else ERR
    {
      hide Standing, Going, Filled, Stage, BuiltTop, Found;
      AtTop();
      nodes := [];
      var found := Open(dir);
      if found == Nothing {
        Refuse(dir, if bread then DNR else ERR);
      } else if found.value != IdOf(dir) {
        Refuse(dir, ERR);
      } else {
        nodes := Scan(dir, bread);
      }
    }

    /** The result of fts_build for a directory that it has opened. */
    ghost predicate Filled(nodes: seq<Node>, dir: Node, bread: bool)
      reads this, buf, dir, nodes
    {
      && stack.On? && stack.top.Opened() && stack.top.Head().target.id in w.dirs && stop == SpoiledTop(w, stack)
      && if stop then
           nodes == [] && dir.info == ERR
         else
           && AllPending(nodes, Kids(w, stack.top.Head().target.id), Here(), dir, buf.size)
           && dir.info == if bread && nodes == [] then DP else D
    }

    lemma AtTop()
      requires Valid() && cur != null && cur.info == D
      ensures stack.On? && stack.top.Opened() && stack.top.Head().target == Directory(IdOf(cur)) && count > 0 && !stop
      ensures Usable(stack) && cur.pathLen == |PathOf(stack.top.Head(), stack.top.place)|
      ensures dev == DevOf(stack.top.Head(), stack.top.place)
    {
      hide Contained, Chained, Nodes, Text, Stage;
      HeadNode(stack, root, buf.size);
      HeadReturned(stack, root, buf.size);
    }

    /** The open of fts_build: its text is what the path buffer holds up to the first terminator.  That is the path of
        the directory when fts_build has not read it yet, and with a slash when it has found nothing there. */
    method Open(dir: Node) returns (found: Maybe<Id>)
      requires Valid() && dir == cur && dir.info == D
      ensures stack.top.Opened() && found == Found(w, stack, Text(buf.path))
      ensures OwnPath(w, stack, Text(buf.path), builds)
    {
      hide Contained, Held, Chained, Nodes, Text, Stage, OwnPath;
      AtTop();
      FoundMeans(w, stack, Text(buf.path), Gauged(), builds);
      ghost var path := PathOf(stack.top.Head(), stack.top.place);
      assert buf.path[..dir.pathLen] == path;
      found := Opened(w, IdOf(dir), buf.path[..dir.pathLen], Text(buf.path));
    }

    method Refuse(dir: Node, info: Info)
      requires Valid() && dir == cur && child == null && dir.info == D && (info == DNR || info == ERR || info == DP)
      modifies dir`info
      ensures Valid() && dir.info == info
    {
      hide Contained, Held, Chained, Nodes, Text, Stage;
      Mark(dir, info);
    }

    /** The rest of fts_build. */
    method Scan(dir: Node, bread: bool) returns (nodes: seq<Node>)
      requires Valid() && dir == cur && child == null && dir.info == D && !stop
      requires Itself(w, stack, Text(buf.path))
      modifies `stop, `builds, buf, dir`info
      ensures Valid() && Links(nodes) && fresh(SetOf(nodes)) && Filled(nodes, dir, bread)
      ensures Gauged() == old(BuiltTop(w, stack, Gauged())) && (!stop ==> builds == old(builds) + 1)
    {
      hide Standing, Going, AllPending, Kids, BuiltTop, Text, Itself, Stage, SpoiledTop, Links;
      AtTop();
      StageOpens(w, stack, Text(buf.path), Gauged(), builds);
      ghost var text, g := Text(buf.path), Gauged();
      var errno;
      nodes, errno := Entries(dir);
      if errno {
        NoLinks();
        nodes := [];
        GiveUp(dir);
      } else {
        StageRead(w, stack, text, g, builds, Text(buf.path));
        Count();
        if bread && nodes == [] {
          Refuse(dir, DP);
        }
      }
    }

    method GiveUp(dir: Node)
      requires Between() && dir == cur
      modifies `stop, dir`info
      ensures Valid() && stop && dir.info == ERR
    {
      hide Contained, Held, Chained, Nodes, Text, Stage;
      Mark(dir, ERR);
      stop := true;
    }

    ghost method Count()
      requires Between() && Stage(w, stack, Text(buf.path), Gauged(), builds + 1)
      modifies `builds
      ensures Valid() && builds == old(builds) + 1
    {
      hide Contained, Held, Chained, Nodes, Text, Stage;
      builds := builds + 1;
    }

    /** fts_build has come to its end. */
    ghost predicate Between()
      reads this, buf, table, repr
    {
      && Fits(w) && (w.openMax <= PATH_MAX ==> !buf.overrun) && !stop
      && cur != null && child == null && Going() && cur.info == D
    }

    /** The directory has been read: its nodes, and what is left in the buffer and in errno. */
    ghost predicate Scanned(nodes: seq<Node>, dir: Node, errno: bool)
      reads this, buf, table, repr, nodes
    {
      && Going() && stack.top.Opened() && stack.top.Head().target.id in w.dirs && Links(nodes)
      && AllPending(nodes, Kids(w, stack.top.Head().target.id), Here(), dir, buf.size)
      && Text(buf.path) == TextAfter(w, stack.top.Head().target.id, PathOf(stack.top.Head(), stack.top.place))
      && errno == SpoiledTop(w, stack)
    }

    /** fts_build for a directory that can be opened. */
    method Entries(dir: Node) returns (nodes: seq<Node>, errno: bool)
      requires stack.On? && stack.top.Opened() && stack.top.Head().target.id in w.dirs && Valid() && dir == cur
      requires dir.info == D && dir.pathLen < w.openMax && IdOf(dir) == stack.top.Head().target.id
      modifies buf
      ensures Scanned(nodes, dir, errno) && fresh(SetOf(nodes)) && (w.openMax <= PATH_MAX ==> !buf.overrun)
      ensures Gauged() == old(BuiltTop(w, stack, Gauged()))
    {
      hide Standing, Held, Seen, SizeAfter, InfoOf, Links, AllPending, Arranged, ErrnoAfter, Text, Stage, TextOf, Trim,
           Later, PathOf, DevOf;
      ghost var path, g := PathOf(stack.top.Head(), stack.top.place), Gauged();
      var len := Slash(dir);
      nodes, errno := ReadAll(w.dirs[IdOf(dir)], dir, len);
      assert Gauged() == Built(w, IdOf(dir), path, g);
    }

    /** The first writes of fts_build. */
    method Slash(dir: Node) returns (len: nat)
      requires Valid() && dir == cur && dir.info == D && dir.pathLen < w.openMax && stack.On? && stack.top.Opened()
      modifies buf`path, buf`overrun
      ensures Reading(dir, len) && Text(buf.path) == Trim(Here().dir) + "/"
      ensures w.openMax <= PATH_MAX ==> !buf.overrun
      ensures buf.overrun == (old(buf.overrun) || len == buf.size)
    {
      hide Held, Chained, Usable, Contained, Nodes, InfoOf, Text;
      HeadReturned(stack, root, buf.size);
      len := buf.Header(PathOf(stack.top.Head(), stack.top.place), dir.pathLen);
    }

    /** The result of fts_build in fts_child. */
    ghost predicate Kept(dir: Node, bread: bool)
      reads this, dir
    {
      && stack.On? && stack.top.Opened() && stack.top.Head().target.id in w.dirs && stop == SpoiledTop(w, stack)
      && if stop then
           child == null && dir.info == ERR
         else
           (child == null <==> Childless(w, stack)) && dir.info == if child == null && bread then DP else D
    }

    /** fts_build, and its result in fts_child. */
    method Fill(dir: Node, bread: bool)
      requires Valid() && dir == cur && dir.info == D && child == null && !stop
      modifies `child, `kids, `repr, `stop, `builds, buf, dir`info
      ensures Valid() && fresh(repr - old(repr))
      ensures if old(Itself(w, stack, Text(buf.path))) then
                Kept(dir, bread) && Gauged() == old(BuiltTop(w, stack, Gauged()))
                && (!stop ==> builds == old(builds) + 1)
              else
                && child == null && !stop && Gauged() == old(Gauged())
                && dir.info == if bread && old(Found(w, stack, Text(buf.path))) == Nothing then DNR else ERR
    {
      hide Contained, Held, Chained, Kids, Built, Nodes, Text, Found, Stage, Spoiled;
      HeadNode(stack, root, buf.size);
      var nodes := Build(dir, bread);
      if nodes != [] {
        Adopt(nodes);
      }
    }

    /** fts_children, for a caller that calls it no more often than the world says. */
    method Children() returns (head: Node?)
      requires Valid() && Tidy() && (cur != null && cur.info == D ==> builds < w.list(count - 1))
      modifies `child, `kids, `repr, `stop, `builds, buf, table, repr
      ensures Valid() && Tidy() && cur == old(cur) && count == old(count) && fresh(repr - old(repr))
      ensures Ahead() == old(Ahead()) && Due() == old(Due())
      ensures cur != null && cur.info == D ==> old(cur != null && cur.info == D) && builds == old(builds) + 1
      ensures old(cur != null && cur.info == D) ==> IdOf(cur) in table.view
      ensures head == if old(cur != null && cur.info == D) then child
                      else if cur != null && !stop && cur.info == INIT then cur.link else null
    {
      hide Held, Chained, Contained, Nodes, Coming, AtEnd, Stage, Classify, Links, AllPending, Text;
      head := null;
      if cur != null && !stop {
        Owned();
        if cur.info == D {
          Relist(cur);
          head := child;
        } else if cur.info == INIT {
          head := cur.link;
        }
      }
    }

    method Relist(dir: Node)
      requires Valid() && dir == cur && dir.info == D && !stop && builds < w.list(count - 1)
      modifies `child, `kids, `repr, `stop, `builds, buf, table, dir`info
      ensures Valid() && Ahead() == old(Ahead()) && Due() == old(Due())
      ensures Tidy() && (dir.info == D ==> builds == old(builds) + 1) && fresh(repr - old(repr))
      ensures IdOf(dir) in table.view
    {
      hide Held, Chained, Contained, Coming, AtEnd, Nodes, Classify, Text, Stage, Found, Itself, BuiltTop, SpoiledTop,
           Links, AllPending;
      Relisted(w, stack, count, Text(buf.path), Gauged(), builds);
      child := null;
      EnterTable(dir);
      Fill(dir, false);
    }

    /** fts_cycle_push of the directory at the top. */
    method EnterTable(dir: Node)
      requires Valid() && dir == cur && dir.info == D
      modifies table
      ensures Valid() && IdOf(dir) in table.view
    {
      hide Held, Contained, Nodes, Chained, Ids, AllPending, Links;
      HeadNode(stack, root, buf.size);
      Push(dir);
    }

    /** sp->fts_child. */
    method Adopt(nodes: seq<Node>)
      requires Valid() && child == null && nodes != [] && cur != null && cur.info == D && builds > 0
      requires Links(nodes) && SetOf(nodes) !! repr && stack.top.Opened() && stack.top.Head().target.id in w.dirs
      requires AllPending(nodes, Kids(w, stack.top.Head().target.id), Here(), cur, buf.size)
      modifies this`child, this`kids, this`repr
      ensures Valid() && child != null && kids == nodes && repr == old(repr) + SetOf(nodes)
    {
      hide Contained, Held, Chained, Links, AllPending, Kids, Stage;
      StageOpens(w, stack, Text(buf.path), Gauged(), builds);
      Own(SetOf(nodes));
      child, kids := nodes[0], nodes;
    }

    ghost method Own(more: set<Node>)
      requires Valid() && child == null
      modifies this`repr
      ensures Valid() && repr == old(repr) + more
    {
      repr := repr + more;
    }

    /** The node on the way out of fts_read. */
    ghost function Reported(): Event
      reads this, buf, cur
      requires cur != null && cur.pathLen <= |buf.path|
    {
      Event(cur.info, cur.level, cur.name, buf.path[..cur.pathLen], cur.item.target)
    }

    /** Neither fts_children nor fts_build has been called for the node at the top. */
    ghost predicate Fresh()
      reads `child, `builds
    {
      child == null && builds == 0
    }

    /** The node p, on top of the stack t, is on its way out for the first time. */
    ghost predicate Arrives(p: Node, t: Stack)
      reads this, buf, p
    {
      && cur == p && stack == t && t.On? && t.top.Inside() && Fresh()
      && p.pathLen <= |buf.path| && Reported() == FirstOf(t) && p.info == FirstOf(t).info
    }

    /** The node p, loaded and on top of the stack t, is the next one to return. */
    method Take(p: Node, ghost t: Stack)
      requires Fits(w) && buf.Valid() && (w.openMax <= PATH_MAX ==> !buf.overrun) && table.Valid() && root.level == -1
      requires !stop && Usable(t) && Chained(t) && Nodes(t) <= repr && Held(t, root, buf.size) && t.top.Inside()
      requires p == t.top.nodes[0] && Contained(table.view, t)
      requires Says(buf.path, PathOf(t.top.Head(), t.top.place)) && dev == DevOf(t.top.Head(), t.top.place)
      requires p.info == InfoOf(t.top.Head(), t.top.place.ids)
      modifies `cur, `child, `stack, `count, `builds
      ensures Valid() && count == old(count) + 1 && Arrives(p, t)
    {
      hide Contained, Nodes, Held, Chained, Classify, Stage, Text, Row, Started;
      HeadReturned(t, root, buf.size);
      TextSaid(buf.path, PathOf(t.top.Head(), t.top.place));
      if p.info == D {
        StageNew(w, t, Text(buf.path), Gauged());
      }
      cur, child, stack := p, null, t;
      count, builds := count + 1, 0;
    }

    /** On to the next root. */
    method NextRoot(p: Node)
      requires Valid() && cur != null && !stop && stack.top.at + 1 < |stack.top.items| && p == cur.link
      requires stack.below.Floor? && Contained(table.view, stack.below)
      modifies `cur, `child, `stack, `dev, `count, `builds, buf`path, p`name, p`pathLen
      ensures Valid() && count == old(count) + 1 && Arrives(p, Advance(old(stack)))
    {
      hide Contained, Nodes, Chained, Links, Row, Classify, AllPending, Held;
      LoadNext(p);
      dev := IdOf(p).dev;
      Take(p, Advance(stack));
    }

    /** fts_load of the next root. */
    method LoadNext(p: Node)
      requires Valid() && cur != null && stack.top.at + 1 < |stack.top.items| && p == cur.link
      requires stack.below.Floor? && Contained(table.view, stack.below)
      modifies buf`path, p`name, p`pathLen
      ensures buf.Valid() && |stack.top.nodes| > 1 && p == stack.top.nodes[1] && stack.top.place.Level() == 0
      ensures var t := Advance(stack);
              && Usable(t) && Chained(t) && Nodes(t) <= repr && Held(t, root, buf.size) && t.top.Inside()
              && Contained(table.view, t) && Says(buf.path, PathOf(t.top.Head(), t.top.place))
              && IdOf(p).dev == DevOf(t.top.Head(), t.top.place) && p.info == InfoOf(t.top.Head(), t.top.place.ids)
    {
      hide Contained, Nodes, Chained, Links, Row, Classify, AllPending, Held, Shifted, Loaded;
      TopRow(stack, root, buf.size);
      RootsAtBottom(stack);
      SecondPending(stack.top, root, buf.size);
      AdvanceOpen(stack, table.view);
      buf.Load(p.name);
      LoadRoot(p, stack.top, root, buf.size);
      RootShifted(stack, root, buf.size);
      AdvanceHeld(stack, root, buf.size);
    }

    /** On to the next entry of the same directory. */
    method NextSibling(p: Node)
      requires Valid() && cur != null && !stop && stack.top.at + 1 < |stack.top.items| && p == cur.link
      requires stack.below.On? && Contained(table.view, stack.below)
      modifies `cur, `child, `stack, `count, `builds, buf`path
      ensures Valid() && count == old(count) + 1 && Arrives(p, Advance(old(stack)))
    {
      SecondPending(stack.top, ParentOf(stack, root), buf.size);
      ghost var dir := stack.top.place.dir;
      JoinBegins(dir, stack.top.Head().name);
      HeadReturned(stack.below, root, buf.size);
      buf.Visit(dir, p.parent.pathLen, p.name);
      AlreadyLoaded(stack, root, buf.size);
      AdvanceHeld(stack, root, buf.size);
      Take(p, Advance(stack));
    }

    /** Down to the first entry of the directory at the top. */
    method Down(p: Node, ghost nodes: seq<Node>)
      requires stack.On? && stack.top.Opened() && stack.top.Head().target.id in w.dirs && Valid()
      requires cur != null && cur.info == D
      requires nodes != [] && Links(nodes) && p == nodes[0]
      requires AllPending(nodes, Kids(w, stack.top.Head().target.id), Here(), cur, buf.size)
      requires SetOf(nodes) <= repr && SetOf(nodes) !! Nodes(stack)
      modifies `cur, `child, `stack, `count, `builds, buf`path
      ensures Valid() && count == old(count) + 1 && Arrives(p, Descend(w, old(stack), nodes))
    {
      hide Contained, Held, Nodes, Chained, Classify, Stage, Text, Started, Links, AllPending, Kids;
      ghost var t := Descend(w, stack, nodes);
      AtTop();
      HeadReturned(stack, root, buf.size);
      FirstPending(nodes, t.top.items, t.top.place, cur, buf.size);
      buf.Visit(Here().dir, p.parent.pathLen, p.name);
      DescendHeld(w, stack, root, buf.size, nodes);
      DescendOpen(w, stack, nodes, table.view);
      Take(p, t);
    }

    /** Back to the directory above. */
    method Up(p: Node)
      requires Valid() && cur != null && stack.below.On? && p == cur.parent && Contained(table.view, stack.below)
      modifies `cur, `child, `stack, `count, `builds, buf`path, p`info
      ensures Valid() && cur == p && count == old(count) + 1 && stack == old(stack).below && Fresh()
      ensures p.pathLen <= |buf.path| && p.info == DP && Reported() == Shows(DP, stack.top.Head(), stack.top.place)
    {
      hide Held, Contained, Nodes, Chained, Classify, Stage, Links, Text;
      Retreat(p);
      Mark(p, DP);
      HeadReturned(stack, root, buf.size);
    }

    method Retreat(p: Node)
      requires Valid() && cur != null && stack.below.On? && p == cur.parent && Contained(table.view, stack.below)
      modifies `cur, `child, `stack, `count, `builds, buf`path
      ensures Standing() && cur == p && count == old(count) + 1 && stack == old(stack).below && Fresh()
      ensures stack.top.Opened() && Begins(buf.path, PathOf(stack.top.Head(), stack.top.place))
      ensures dev == DevOf(stack.top.Head(), stack.top.place)
    {
      hide Held, Contained, Nodes, InfoOf, Chained, Started;
      JoinBegins(stack.top.place.dir, stack.top.Head().name);
      BelowHeld(stack, root, buf.size);
      buf.Cut(stack.top.place.dir, p.pathLen);
      Rise(p, stack.below);
    }

    method Rise(p: Node, ghost b: Stack)
      requires buf.Valid() && table.Valid() && root.level == -1 && Contained(table.view, b)
      requires Usable(b) && Chained(b) && Nodes(b) <= repr && Held(b, root, buf.size) && |b.top.nodes| > 0
      requires p == b.top.nodes[0]
      modifies `cur, `child, `stack, `count, `builds
      ensures Standing() && cur == p && count == old(count) + 1 && stack == b && Fresh()
    {
      hide Held, Contained, Nodes, Chained, Started, Stage;
      cur, child, stack := p, null, b;
      count, builds := count + 1, 0;
    }

    /** fts_cycle_pop of the node at the top. */
    method Leave(p: Node)
      requires Valid() && p == cur
      modifies table
      ensures Valid() && Contained(table.view, stack.below)
    {
      hide Held, Contained, Nodes, Classify, Chained, IsOpen, Ids, AllPending, Links;
      if stack.top.Opened() {
        DirectoryFirst(stack.top.Head(), stack.top.place.ids);
        HeadNode(stack, root, buf.size);
      }
      Pop(p);
    }

    /** The label `next` in fts_read: the next entry of the directory, or the directory again. */
    method Next() returns (p: Node?)
      requires Valid() && cur != null && cur.info != D && !stop
      modifies `cur, `child, `stack, `dev, `count, `builds, buf`path, table, repr
      ensures Valid() && cur == p
      ensures p == null ==> old(Rest()) == Nil
      ensures p != null ==>
              count == old(count) + 1 && p.pathLen <= |buf.path|
              && old(Rest()) == Cons(Reported(), Rest())
      ensures p != null ==> Fresh() && (p.level > 0 ==> dev == old(dev))
    {
      Leave(cur);
      p := cur.link;
      if p != null {
        MoveOn(p);
      } else {
        p := MoveBack();
      }
    }

    lemma Owned()
      requires Valid() && cur != null
      ensures cur in repr && (count > 0 || cur.info == INIT)
    {
    }

    /** The node just returned, and what comes. */
    lemma AtHead(before: bv64)
      requires Valid() && cur != null && !stop && count > 0 && (cur.level > 0 ==> before == dev)
      ensures cur.pathLen <= |buf.path|
      ensures Cut(w, Cons(Reported(), Rest()), count - 1, before) == Cons(Reported(), Ahead())
      ensures Measured(w, Cons(Reported(), Ahead()), count - 1, before, Gauged()) == Due()
    {
      hide Held, Chained, Contained, Measured, Cut, Remaining, Built, Nodes, Classify, Stage, Coming, AtEnd;
      HeadReturned(stack, root, buf.size);
      if cur.info == D {
        DirectoryFirst(stack.top.Head(), stack.top.place.ids);
      }
      assert Reported() == Shows(cur.info, stack.top.Head(), stack.top.place);
      Arrived(w, stack, cur.info, count, before, Gauged());
    }

    method MoveOn(p: Node)
      requires Valid() && cur != null && cur.info != D && !stop && p == cur.link && Contained(table.view, stack.below)
      modifies `cur, `child, `stack, `dev, `count, `builds, buf`path, repr
      ensures Valid() && cur == p && count == old(count) + 1 && Fresh() && (p.level > 0 ==> dev == old(dev))
      ensures p.pathLen <= |buf.path| && old(Rest()) == Cons(Reported(), Rest())
    {
      LinkAt(stack.top.nodes, 0);
      NextEntry(w, stack, count);
      MoveTo(p);
    }

    method MoveBack() returns (p: Node?)
      requires Valid() && cur != null && cur.info != D && cur.link == null && Contained(table.view, stack.below)
      modifies `cur, `child, `stack, `count, `builds, buf`path, repr
      ensures Valid() && cur == p
      ensures p == null ==> old(Rest()) == Nil
      ensures p != null ==>
              count == old(count) + 1 && p.pathLen <= |buf.path|
              && old(Rest()) == Cons(Reported(), Rest())
      ensures p != null ==> Fresh()
    {
      LastNode(stack, root, buf.size);
      ParentLevel(stack, root, buf.size);
      p := cur.parent;
      if p.level == -1 {
        TheEnd(w, stack, count);
        cur, p := null, null;
      } else {
        Reopen(p);
      }
    }

    method Reopen(p: Node)
      requires Valid() && cur != null && cur.info != D && p == cur.parent && stack.below.On?
      requires stack.top.at + 1 == |stack.top.items| && Contained(table.view, stack.below)
      modifies `cur, `child, `stack, `count, `builds, buf`path, p`info
      ensures Valid() && cur == p && count == old(count) + 1 && Fresh()
      ensures p.pathLen <= |buf.path| && old(Rest()) == Cons(Reported(), Rest())
    {
      hide Held, Contained, Nodes, Chained, Stage, Classify, Links;
      GoUp(w, stack, count);
      Up(p);
    }

    method MoveTo(p: Node)
      requires Valid() && cur != null && child == null && !stop && p == cur.link && stack.top.at + 1 < |stack.top.items|
      requires Contained(table.view, stack.below)
      modifies `cur, `child, `stack, `dev, `count, `builds, buf`path, repr
      ensures Valid() && count == old(count) + 1 && Arrives(p, Advance(old(stack)))
      ensures p.level > 0 ==> dev == old(dev)
    {
      SecondPending(stack.top, ParentOf(stack, root), buf.size);
      RootsAtBottom(stack);
      if p.level == 0 {
        NextRoot(p);
      } else {
        NextSibling(p);
      }
    }

    /** The directory at the top is returned once more. */
    method Stay(p: Node)
      requires Valid() && p == cur && child == null && stack.top.Opened() && p.info != D
      modifies `count, `builds
      ensures Valid() && cur == p && count == old(count) + 1 && Fresh()
      ensures p.pathLen <= |buf.path| && Reported() == Shows(p.info, stack.top.Head(), stack.top.place)
    {
      HeadReturned(stack, root, buf.size);
      count, builds := count + 1, 0;
    }

    /** fts_read for a directory that is not to be entered. */
    method SkipDir(dir: Node)
      requires Valid() && dir == cur && dir.info == D && !LostTop(w, stack, count) && !Enters(w, stack, count)
      modifies `child, `count, `builds, table, dir`info
      ensures Valid() && cur == dir && count == old(count) + 1 && Fresh()
      ensures dir.pathLen <= |buf.path| && old(Rest()) == Cons(Reported(), Rest())
    {
      hide Held, Chained, Contained, Remaining, Nodes, Classify, Built, Stage, LostTop, Text, Links, AllPending;
      StayHere(w, stack, count);
      child := null;
      Leave(dir);
      Mark(dir, DP);
      Stay(dir);
    }

    /** fts_read for a directory that is to be entered: null where fts_build gives up. */
    method EnterDir(dir: Node) returns (p: Node?)
      requires Valid() && dir == cur && dir.info == D && !stop && Enters(w, stack, count) && Asked()
      modifies `cur, `child, `kids, `repr, `stack, `stop, `count, `builds, buf, table, dir`info
      ensures Valid() && fresh(repr - old(repr)) && (p == null <==> stop) && IdOf(dir) in table.view
      ensures p == null <==> old(HaltsTop(w, stack, count, dev))
      ensures Gauged() == old(AtNext(w, stack, D, count, dev, Gauged()))
      ensures p != null ==>
              cur == p && count == old(count) + 1 && p.pathLen <= |buf.path| && Fresh()
              && old(Rest()) == Cons(Reported(), Rest())
    {
      hide Held, Chained, Contained, Remaining, Nodes, Classify, Built, Stage;
      Complete(dir);
      p := null;
      if !stop {
        p := EnterOrRefuse(dir);
      }
    }

    /** fts_child is the list of a directory to enter; without one the directory is marked for its second visit. */
    ghost predicate Completed(dir: Node)
      reads this, dir
    {
      && stack.On? && stack.top.Opened() && count > 0 && !LostTop(w, stack, count)
      && if child == null then
           dir.info == Refusal(w, stack, count)
           && (!RefusedTop(w, stack, count) ==> stack.top.Head().target.id in w.dirs && Childless(w, stack))
         else
           !RefusedTop(w, stack, count)
    }

    /** The list of the directory, unless fts_children has left it. */
    method Complete(dir: Node)
      requires Valid() && dir == cur && dir.info == D && !stop && Enters(w, stack, count) && Asked()
      modifies `child, `kids, `repr, `stop, `builds, buf, table, dir`info
      ensures Valid() && fresh(repr - old(repr)) && IdOf(dir) in table.view
      ensures stop <==> old(HaltsTop(w, stack, count, dev))
      ensures Gauged() == old(AtNext(w, stack, D, count, dev, Gauged())) && (!stop ==> Completed(dir))
    {
      hide Standing, Chained, Classify, Stage, LostTop, RefusedTop, HaltsTop, AtNext, Enters, Found, Itself,
           BuiltTop, SpoiledTop, Text, Links, AllPending;
      AtTop();
      Settled(w, stack, count, Text(buf.path), Gauged(), builds);
      EnterTable(dir);
      if child == null {
        Fill(dir, true);
      } else {
        FirstPending(kids, Kids(w, stack.top.Head().target.id), Here(), cur, buf.size);
      }
    }

    method EnterOrRefuse(dir: Node) returns (p: Node)
      requires Valid() && dir == cur && Completed(dir) && Enters(w, stack, count)
      modifies `cur, `child, `stack, `count, `builds, buf`path
      ensures Valid() && cur == p && count == old(count) + 1 && p.pathLen <= |buf.path| && Fresh()
      ensures old(Remaining(w, stack, D, count)) == Cons(Reported(), Rest())
    {
      p := if child == null then dir else child;
      if child == null {
        ReturnAgain(dir);
      } else {
        Enter(p);
      }
    }

    method ReturnAgain(dir: Node)
      requires Valid() && dir == cur && child == null && Completed(dir) && dir.info != D
      modifies `count, `builds
      ensures Valid() && cur == dir && count == old(count) + 1 && dir.pathLen <= |buf.path| && Fresh()
      ensures old(Remaining(w, stack, D, count)) == Cons(Reported(), Rest())
    {
      StayHere(w, stack, count);
      Stay(dir);
    }

    method Enter(p: Node)
      requires Valid() && cur != null && p == child && Enters(w, stack, count)
      requires !LostTop(w, stack, count) && !RefusedTop(w, stack, count)
      modifies `cur, `child, `stack, `count, `builds, buf`path
      ensures Valid() && cur == p && count == old(count) + 1 && p.pathLen <= |buf.path| && Fresh()
      ensures old(Remaining(w, stack, D, count)) == Cons(Reported(), Rest())
    {
      GoDown(w, stack, kids, count);
      Down(p, kids);
    }

    /** fts_read: the next node of the recursive walk, or null at its end or where fts_build gives up. */
    method Read() returns (p: Node?)
      requires Valid() && Asked()
      modifies this, buf, table, repr
      ensures Valid() && fresh(repr - old(repr)) && Due() == old(Due())
      ensures p == null ==> old(Ahead()) == Nil && (cur == null || stop)
      ensures p != null ==>
              cur == p && !stop && Fresh() && count == old(count) + 1 && p.pathLen <= |buf.path|
              && old(Ahead()) == Cons(Reported(), Ahead())
    {
      hide Standing, Going, Listed, Asked, Remaining, Measured, Cut, Built, Stage, HaltsTop;
      if cur == null || stop {
        return null;
      }
      Owned();
      if cur.info != D {
        p := Next();
      } else {
        p := ReadDir(cur);
      }
      if p != null {
        AtHead(old(dev));
      } else {
        MeasuredNothing(w, old(count), old(dev), Gauged());
        CutNothing(w, old(count), old(dev));
      }
    }

    /** ...after the first visit of a directory. */
    method ReadDir(dir: Node) returns (p: Node?)
      requires Valid() && Asked() && dir == cur && dir.info == D && !stop
      modifies `cur, `child, `kids, `repr, `stack, `stop, `count, `builds, buf, table, dir`info
      ensures Valid() && fresh(repr - old(repr)) && (p == null <==> stop)
      ensures p == null <==> old(HaltsTop(w, stack, count, dev))
      ensures Gauged() == old(AtNext(w, stack, D, count, dev, Gauged()))
      ensures p != null ==>
              cur == p && count == old(count) + 1 && p.pathLen <= |buf.path| && Fresh()
              && old(Rest()) == Cons(Reported(), Rest())
    {
      hide Held, Chained, Contained, Remaining, Nodes, Classify, Stage, AtNext, HaltsTop, LostTop, Text, Links,
           AllPending;
      p := dir;
      HeadNode(stack, root, buf.size);
      if w.skip(count - 1) || (w.xdev && IdOf(p).dev != dev) {
        Settled(w, stack, count, Text(buf.path), Gauged(), builds);
        SkipDir(p);
      } else {
        p := EnterDir(p);
      }
    }

    /** A caller that reads to the end, and lists and skips as it likes. */
    method Drain() returns (events: seq<Event>)
      requires Valid() && Asked()
      modifies this, buf, table, repr
      ensures Valid() && Ahead() == Nil && events == Sequence(old(Ahead()))
      ensures Gauged() == old(Due()) && (w.openMax <= PATH_MAX ==> !buf.overrun)
    {
      hide Standing, Going, Listed, Measured, Remaining, Cut, Built, Reported, Stage, Coming, AtEnd;
      events := [];
      ghost var rest := Ahead();
      ghost var all := Sequence(rest);
      var going := true;
      while going
        invariant Valid() && Asked() && fresh(repr - old(repr)) && (!going ==> cur == null || stop)
        invariant rest == Ahead() && all == events + Sequence(rest) && Due() == old(Due())
        decreases Length(rest), going
      {
        var more;
        going, more := Round();
        StillAll(all, events, more, rest, Ahead());
        events, rest := events + more, Ahead();
      }
    }

    /** One call of fts_read, and of fts_children as often as the caller likes. */
    method Round() returns (going: bool, more: seq<Event>)
      requires Valid() && Asked()
      modifies this, buf, table, repr
      ensures Valid() && Asked()
      ensures fresh(repr - old(repr))
      ensures !going ==> cur == null || stop
      ensures Length(Ahead()) + (if going then 1 else 0) <= Length(old(Ahead()))
      ensures Sequence(old(Ahead())) == more + Sequence(Ahead()) && Due() == old(Due())
    {
      hide Standing, Going, Listed, Measured, Remaining, Cut, Built, Stage, Coming, AtEnd;
      var p := Read();
      going, more := p != null, [];
      if p != null {
        more := [Event(p.info, p.level, p.name, buf.path[..p.pathLen], p.item.target)];
        if p.info == D {
          ListDir(p);
        }
      }
    }

    /** fts_children, as often as the caller likes. */
    method ListDir(dir: Node)
      requires Valid() && dir == cur && dir.info == D && !stop && Fresh() && count > 0
      modifies `child, `kids, `repr, `stop, `builds, buf, table, repr
      ensures Valid() && Asked() && cur == dir && fresh(repr - old(repr))
      ensures Ahead() == old(Ahead()) && Due() == old(Due())
    {
      hide Standing, Going, Listed, Measured, Remaining, Cut, Built, Stage, Coming, AtEnd;
      var calls := 0;
      while calls < w.list(count - 1)
        invariant Valid() && cur == dir && count == old(count) && calls <= w.list(count - 1) && Tidy()
        invariant cur.info == D ==> builds == calls && !stop
        invariant Ahead() == old(Ahead()) && Due() == old(Due()) && fresh(repr - old(repr))
      {
        var _ := Children();
        calls := calls + 1;
      }
    }
  }

  /** What fts_read returns for the given roots, whatever directories the caller skips, and lists, and lists again: the
      nodes of the recursive walk, up to where fts_build gives up.  In that walk every directory that is entered is
      followed by each of its entries, once, and by no others.  And fts_build writes past the end of the path buffer
      exactly if the walk makes it do so, which it does not when longer paths than PATH_MAX do not open. */
  method WalkTree(w: World, roots: seq<Dirent>) returns (events: seq<Event>, ghost overrun: bool)
    requires Fits(w) && roots != []
    requires forall e :: e in roots ==> Named(e) && |e.name| < 0x1000_0000
    ensures var walk := WalkAll(w, roots, 0, TOP, 0);
            && events == Sequence(Cut(w, walk, 0, 0)) <= Sequence(walk)
            && (events == Sequence(walk) <==> !Halting(w, walk, 0, 0))
            && FtsComplete.Tells(w, walk, 0, 0) && FtsComplete.RootsVisited(roots, FtsComplete.Visits(walk, 0))
    ensures overrun == Whole(w, roots).overrun && (w.openMax <= PATH_MAX ==> !overrun)
  {
    var h := new Fts(w, roots);
    events := h.Drain();
    overrun := h.buf.overrun;
    WholeWalk(w, roots);
    FtsComplete.WalkIsComplete(w, roots);
    FtsComplete.CutBegins(w, WalkAll(w, roots, 0, TOP, 0), 0, 0);
  }

  /** A walk in which it writes past the end. */
  method DeepRun() returns (events: seq<Event>, ghost overrun: bool)
    ensures events == Sequence(Cut(DeepWorld(), WalkAll(DeepWorld(), [DeepRoot()], 0, TOP, 0), 0, 0)) && overrun
  {
    hide Fits, DeepWorld, DeepRoot, Whole;
    DeepOverruns();
    DeepFits();
    events, overrun := WalkTree(DeepWorld(), [DeepRoot()]);
  }

  /** Walks that end with a directory open: an entry cannot be examined; a directory is listed twice; a directory that
      cannot be opened is listed. */
  method OpenRuns() returns (unsearched: seq<Event>, twice: seq<Event>, closed: seq<Event>)
    ensures unsearched == twice == closed == [OPENED]
  {
    hide WalkAll, Cut, Sequence, Halting;
    GivenUp();
    ListedTwice();
    NeverClosed();
    OneSequence(OPENED);
    ghost var overrun;
    unsearched, overrun := WalkTree(Holding(NoStat, 0), [Root()]);
    twice, overrun := WalkTree(Holding(File, 2), [Root()]);
    closed, overrun := WalkTree(Closed(), [Root()]);
  }

  lemma OneSequence(e: Event)
    ensures Sequence(One(e)) == [e]
  {
    assert Sequence(Nil) == [];
  }
}
